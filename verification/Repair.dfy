/** Repair of whole genes and chromosomes, in place on a fresh copy. */
module Repair {
  import opened Prelude
  import opened Candidates
  import opened Timetable
  import opened Genes
  import opened Fitness
  import opened Penalties
  import opened WellFormed
  import opened RepairSession

  // ---------------------------------------------------------------- the sessions of one gene

  ghost predicate NoSharedSlot(s: SessionData, t: SessionData) {
    forall slot :: slot in s.timeSlotIds ==> slot !in t.timeSlotIds
  }

  /** Sessions that were not left to the last resort meet no other gene and no earlier sibling. */
  ghost predicate Repaired(ss: seq<SessionData>, flags: seq<bool>, index: ConflictIndex) {
    && |flags| == |ss|
    && (forall k :: 0 <= k < |ss| && !flags[k] ==> Clean(ss[k], index, {}))
    && (forall j, k :: 0 <= j < k < |ss| && !flags[k] ==> NoSharedSlot(ss[j], ss[k]))
  }

  ghost predicate UsedBy(ss: seq<SessionData>, used: set<int>) {
    forall k, slot :: 0 <= k < |ss| && slot in ss[k].timeSlotIds ==> slot in used
  }

  lemma RepairedGrows(ss: seq<SessionData>, flags: seq<bool>, index: ConflictIndex, used: set<int>, s: SessionData,
                      lastResort: bool)
    requires Repaired(ss, flags, index) && UsedBy(ss, used)
    requires !lastResort ==> Clean(s, index, used)
    ensures Repaired(ss + [s], flags + [lastResort], index)
    ensures UsedBy(ss + [s], used + Elements(s.timeSlotIds))
  {
    if !lastResort {
      assert Clean(s, index, {});
      forall j, slot | 0 <= j < |ss| && slot in ss[j].timeSlotIds ensures slot !in s.timeSlotIds {
        assert slot in used;
      }
    }
  }

  ghost function SlotsOf(ss: seq<SessionData>): set<int> {
    if ss == [] then {} else SlotsOf(ss[..|ss| - 1]) + Elements(ss[|ss| - 1].timeSlotIds)
  }

  /** Session k fell to the last resort only after every allowed room and block was exhausted at its turn. */
  ghost predicate Earned(c: Candidate, lookup: SlotLookup, kind: Kind, given: seq<SessionData>,
                         placed: seq<SessionData>, flags: seq<bool>, index: ConflictIndex) {
    |given| == |placed| == |flags| && forall k :: 0 <= k < |flags| && flags[k] ==>
      Exhausted(c, lookup, kind, given[k], placed[k].timeSlotIds, index, SlotsOf(placed[..k]))
  }

  /** Every session became what its repair may return at its turn, beside the slots of the sessions placed before. */
  ghost predicate Stepped(c: Candidate, lookup: SlotLookup, kind: Kind, given: seq<SessionData>,
                          placed: seq<SessionData>, flags: seq<bool>, index: ConflictIndex) {
    |given| == |placed| == |flags| && forall k :: 0 <= k < |flags| ==>
      MayRepair(c, lookup, kind, given[k], index, SlotsOf(placed[..k]), placed[k], flags[k])
  }

  lemma SteppedGrows(c: Candidate, lookup: SlotLookup, kind: Kind, given: seq<SessionData>, placed: seq<SessionData>,
                     flags: seq<bool>, index: ConflictIndex, s: SessionData, t: SessionData, lastResort: bool)
    requires Stepped(c, lookup, kind, given, placed, flags, index)
    requires MayRepair(c, lookup, kind, s, index, SlotsOf(placed), t, lastResort)
    ensures Stepped(c, lookup, kind, given + [s], placed + [t], flags + [lastResort], index)
  {
    hide MayRepair, SlotsOf;
    var n, all := |placed|, placed + [t];
    assert all[..n] == placed;
    var ss, fl := given + [s], flags + [lastResort];
    forall k | 0 <= k <= n ensures MayRepair(c, lookup, kind, ss[k], index, SlotsOf(all[..k]), all[k], fl[k]) {
      if k < n { assert all[..k] == placed[..k]; }
    }
  }

  lemma EarnedGrows(c: Candidate, lookup: SlotLookup, kind: Kind, given: seq<SessionData>, placed: seq<SessionData>,
                    flags: seq<bool>, index: ConflictIndex, s: SessionData, t: SessionData, lastResort: bool)
    requires Earned(c, lookup, kind, given, placed, flags, index)
    requires lastResort ==> Exhausted(c, lookup, kind, s, t.timeSlotIds, index, SlotsOf(placed))
    ensures Earned(c, lookup, kind, given + [s], placed + [t], flags + [lastResort], index)
    ensures SlotsOf(placed + [t]) == SlotsOf(placed) + Elements(t.timeSlotIds)
  {
    hide Exhausted;
    var n := |placed|;
    assert (placed + [t])[..n] == placed;
    forall k | 0 <= k < n && flags[k]
      ensures Exhausted(c, lookup, kind, given[k], placed[k].timeSlotIds, index, SlotsOf((placed + [t])[..k])) {
      assert (placed + [t])[..k] == placed[..k];
    }
  }

  /** Moving rooms changes no slot. */
  lemma EarnedAfterMoves(c: Candidate, lookup: SlotLookup, kind: Kind, given: seq<SessionData>, mid: seq<SessionData>,
                         placed: seq<SessionData>, flags: seq<bool>, index: ConflictIndex)
    requires Earned(c, lookup, kind, given, mid, flags, index)
    requires |placed| == |mid| && forall k :: 0 <= k < |mid| ==> placed[k].timeSlotIds == mid[k].timeSlotIds
    ensures Earned(c, lookup, kind, given, placed, flags, index)
  {
    hide Exhausted;
    forall k | 0 <= k < |flags| && flags[k]
      ensures Exhausted(c, lookup, kind, given[k], placed[k].timeSlotIds, index, SlotsOf(placed[..k])) {
      SameSlots(placed[..k], mid[..k]);
    }
  }

  lemma {:induction false} SameSlots(a: seq<SessionData>, b: seq<SessionData>)
    requires |a| == |b| && forall k :: 0 <= k < |a| ==> a[k].timeSlotIds == b[k].timeSlotIds
    ensures SlotsOf(a) == SlotsOf(b)
  {
    if a != [] { SameSlots(a[..|a| - 1], b[..|b| - 1]); }
  }

  /** The value-level state of the session loop after the first sessions. */
  ghost predicate SoFar(c: Candidate, lookup: SlotLookup, kind: Kind, given: seq<SessionData>, placed: seq<SessionData>,
                        flags: seq<bool>, index: ConflictIndex, used: set<int>)
    requires CandidateOk(c)
  {
    && |placed| == |given| && (forall j :: 0 <= j < |placed| ==> SessionOk(c, lookup, j, placed[j]))
    && Repaired(placed, flags, index) && UsedBy(placed, used)
    && Earned(c, lookup, kind, given, placed, flags, index) && used == SlotsOf(placed)
    && Stepped(c, lookup, kind, given, placed, flags, index)
  }

  lemma SoFarGrows(c: Candidate, lookup: SlotLookup, kind: Kind, given: seq<SessionData>, placed: seq<SessionData>,
                   flags: seq<bool>,
                   index: ConflictIndex, used: set<int>, s: SessionData, t: SessionData, lastResort: bool)
    requires CandidateOk(c) && SoFar(c, lookup, kind, given, placed, flags, index, used) &&
      SessionOk(c, lookup, |placed|, t)
    requires !lastResort ==> Clean(t, index, used)
    requires lastResort ==> Exhausted(c, lookup, kind, s, t.timeSlotIds, index, used)
    requires MayRepair(c, lookup, kind, s, index, used, t, lastResort)
    ensures SoFar(c, lookup, kind, given + [s], placed + [t], flags + [lastResort], index,
      used + Elements(t.timeSlotIds))
  {
    hide CandidateOk, SessionOk, Repaired, Clean, UsedBy, Earned, Exhausted, SlotsOf, Stepped, MayRepair;
    SteppedGrows(c, lookup, kind, given, placed, flags, index, s, t, lastResort);
    RepairedGrows(placed, flags, index, used, t, lastResort);
    EarnedGrows(c, lookup, kind, given, placed, flags, index, s, t, lastResort);
  }

  lemma NothingSoFar(c: Candidate, lookup: SlotLookup, kind: Kind, index: ConflictIndex)
    requires CandidateOk(c)
    ensures SoFar(c, lookup, kind, [], [], [], index, {})
  {
    NothingRepaired(index);
    NothingEarned(c, lookup, kind, index);
  }

  lemma AllSoFar(c: Candidate, lookup: SlotLookup, kind: Kind, given: seq<SessionData>, placed: seq<SessionData>,
                 flags: seq<bool>, index: ConflictIndex, used: set<int>)
    requires CandidateOk(c) && SessionsOk(c, lookup, given) && SoFar(c, lookup, kind, given, placed, flags, index, used)
    ensures SessionsOk(c, lookup, placed) && Repaired(placed, flags, index) &&
      Earned(c, lookup, kind, given, placed, flags, index)
    ensures Stepped(c, lookup, kind, given, placed, flags, index)
  {
    hide CandidateOk, SessionOk, Repaired, Earned, Stepped;
  }

  /** One round of the session loop. A fixed gene's session is copied first. */
  method RepairOne(session: Session, c: Candidate, kind: Kind, index: ConflictIndex, lookup: SlotLookup, used: set<int>,
                   ghost k: nat)
    returns (r: Session, ghost lastResort: bool)
    requires LookupOk(lookup) && CandidateOk(c) && SessionOk(c, lookup, k, session.Data())
    requires kind == if c.isFixedRoom then FIXED else FLEXIBLE
    ensures (r == session && kind == FLEXIBLE) || fresh(r)
    ensures SessionOk(c, lookup, k, r.Data())
    ensures MayRepair(c, lookup, kind, old(session.Data()), index, used, r.Data(), lastResort)
    ensures !lastResort ==> Clean(r.Data(), index, used)
    ensures lastResort ==> Exhausted(c, lookup, kind, old(session.Data()), r.timeSlotIds, index, used)
  {
    hide MayRepair, CandidateOk, SessionOk, LookupOk, Clean, AllowedRoom, LecturerStep, Exhausted;
    var own := session;
    if kind == FIXED { own := new Session(session.Data()); }
    r, lastResort := RepairSessionAsBlock(own, c, kind, index, lookup, used, k);
  }

  /** The repaired sessions of one gene: old objects that were kept, or new ones. */
  method RepairSessions(sessions: seq<Session>, c: Candidate, kind: Kind, index: ConflictIndex, lookup: SlotLookup,
                        ghost given: seq<SessionData>)
    returns (newSessions: seq<Session>, ghost flags: seq<bool>, ghost placed: seq<SessionData>)
    requires LookupOk(lookup) && CandidateOk(c) && SessionsOk(c, lookup, given) && NoDup(sessions)
    requires given == SessionValues(sessions)
    requires kind == if c.isFixedRoom then FIXED else FLEXIBLE
    ensures NoDup(newSessions) && forall s :: s in newSessions ==> s in sessions || fresh(s)
    ensures placed == SessionValues(newSessions)
    ensures SessionsOk(c, lookup, placed) && Repaired(placed, flags, index) &&
      Earned(c, lookup, kind, given, placed, flags, index)
    ensures Stepped(c, lookup, kind, given, placed, flags, index)
  {
    hide *;
    SessionsOkFacts(c, lookup, given);
    newSessions, flags, placed := [], [], [];
    var usedSlotsInGene: set<int> := {};
    NothingSoFar(c, lookup, kind, index);
    NoneTwice();
    for k := 0 to |sessions|
      invariant |newSessions| == |placed| == k && forall j :: 0 <= j < k ==> newSessions[j].Data() == placed[j]
      invariant forall j :: 0 <= j < |given| ==> sessions[j].Data() == given[j]
      invariant SoFar(c, lookup, kind, given[..k], placed, flags, index, usedSlotsInGene)
      invariant NoDup(newSessions) && forall s :: s in newSessions ==> s in sessions[..k] || fresh(s)
    {
      var s;
      ghost var lastResort;
      s, usedSlotsInGene, lastResort :=
        RepairNext(sessions[k], c, kind, index, lookup, usedSlotsInGene, given, k, placed, flags);
      NoDupSnoc(newSessions, s);
      LastIsNew(sessions, k);
      newSessions, flags, placed := newSessions + [s], flags + [lastResort], placed + [s.Data()];
    }
    assert given[..|given|] == given && SessionValues(newSessions) == placed;
    AllSoFar(c, lookup, kind, given, placed, flags, index, usedSlotsInGene);
  }

  /** One round: the repaired session, and the slots that the gene now uses. */
  method RepairNext(session: Session, c: Candidate, kind: Kind, index: ConflictIndex, lookup: SlotLookup,
                    used: set<int>,
                    ghost given: seq<SessionData>, ghost k: nat, ghost placed: seq<SessionData>, ghost flags: seq<bool>)
    returns (s: Session, used': set<int>, ghost lastResort: bool)
    requires LookupOk(lookup) && CandidateOk(c) && k < |given| && session.Data() == given[k] && |placed| == k
    requires SessionOk(c, lookup, k, given[k]) && kind == if c.isFixedRoom then FIXED else FLEXIBLE
    requires SoFar(c, lookup, kind, given[..k], placed, flags, index, used)
    ensures s == session || fresh(s)
    ensures SoFar(c, lookup, kind, given[..k + 1], placed + [s.Data()], flags + [lastResort], index, used')
  {
    hide *;
    s, lastResort := RepairOne(session, c, kind, index, lookup, used, k);
    used' := used + set slot | slot in s.timeSlotIds;
    SlotSet(s.timeSlotIds);
    SoFarGrows(c, lookup, kind, given[..k], placed, flags, index, used, given[k], s.Data(), lastResort);
    assert given[..k] + [given[k]] == given[..k + 1];
  }

  lemma NoneTwice()
    ensures NoDup<Session>([])
  {
  }

  lemma SlotSet(slots: seq<int>)
    ensures Elements(slots) == set slot | slot in slots
  {
  }

  lemma NothingEarned(c: Candidate, lookup: SlotLookup, kind: Kind, index: ConflictIndex)
    ensures Earned(c, lookup, kind, [], [], [], index) && Stepped(c, lookup, kind, [], [], [], index)
    ensures SlotsOf([]) == {}
  {
  }

  lemma NothingRepaired(index: ConflictIndex)
    ensures Repaired([], [], index) && UsedBy([], {})
  {
  }

  /** Every session of a fixed gene is put back into the first session's room. */
  function MaskRooms(ss: seq<SessionData>, room: int): seq<SessionData> {
    seq(|ss|, k requires 0 <= k < |ss| => ss[k].(roomId := room))
  }

  /** The mask writes nothing new: legal sessions of a fixed candidate are already in its room. */
  lemma MaskChangesNothing(c: Candidate, lookup: SlotLookup, given: seq<SessionData>, ss: seq<SessionData>)
    requires CandidateOk(c) && c.isFixedRoom && SessionsOk(c, lookup, given) && SessionsOk(c, lookup, ss) && given != []
    ensures MaskRooms(ss, given[0].roomId) == ss
  {
    assert SessionOk(c, lookup, 0, given[0]);
    forall k | 0 <= k < |ss| ensures ss[k].roomId == given[0].roomId {
      assert SessionOk(c, lookup, k, ss[k]);
    }
  }

  // ---------------------------------------------------------------- capacity

  /** No other gene and no sibling holds the room at the session's slots. */
  predicate RoomFree(room: int, ss: seq<SessionData>, idx: nat, index: ConflictIndex)
    requires idx < |ss|
  {
    forall slot :: slot in ss[idx].timeSlotIds ==>
      (room, slot) !in index.roomTimeUsed && !HeldBySibling(room, slot, ss, idx)
  }

  /** Another session of the gene holds the room at the slot. */
  predicate HeldBySibling(room: int, slot: int, ss: seq<SessionData>, idx: nat) {
    exists i :: 0 <= i < |ss| && i != idx && ss[i].roomId == room && slot in ss[i].timeSlotIds
  }

  /** Session idx can move to a larger, free room of the pool. */
  predicate Upgrade(ss: seq<SessionData>, idx: int, room: int, pool: seq<int>, index: ConflictIndex,
                    roomById: map<int, int>) {
    0 <= idx < |ss| && room in pool && room != ss[idx].roomId
    && CapacityOf(roomById, room) > CapacityOf(roomById, ss[idx].roomId) && RoomFree(room, ss, idx, index)
  }

  function Move(ss: seq<SessionData>, idx: nat, room: int): seq<SessionData>
    requires idx < |ss|
  {
    ss[idx := ss[idx].(roomId := room)]
  }

  function Larger(pool: seq<int>, current: int, roomById: map<int, int>): (r: seq<int>)
    ensures forall x :: x in r <==> x in pool && x != current && CapacityOf(roomById, x) > CapacityOf(roomById, current)
  {
    if pool == [] then []
    else
      var x := pool[|pool| - 1];
      Larger(pool[..|pool| - 1], current, roomById) +
      if x != current && CapacityOf(roomById, x) > CapacityOf(roomById, current) then [x] else []
  }

  function LargestFirst(roomById: map<int, int>): int -> int { (x: int) => -CapacityOf(roomById, x) }

  function WeakestFirst(ss: seq<SessionData>, roomById: map<int, int>): int -> int {
    (i: int) => if 0 <= i < |ss| then CapacityOf(roomById, ss[i].roomId) else 0
  }

  /** The largest room that session idx can upgrade to. */
  method BestRoom(ss: seq<SessionData>, idx: nat, pool: seq<int>, index: ConflictIndex, roomById: map<int, int>)
    returns (best: Option<int>)
    requires idx < |ss|
    ensures best.Some? ==> Upgrade(ss, idx, best.value, pool, index, roomById)
    ensures best.Some? ==> forall x :: Upgrade(ss, idx, x, pool, index, roomById) ==>
      CapacityOf(roomById, x) <= CapacityOf(roomById, best.value)
    ensures best.None? ==> forall x :: !Upgrade(ss, idx, x, pool, index, roomById)
  {
    hide *;
    var alternatives := Alternatives(ss, idx, pool, index, roomById);
    for i := 0 to |alternatives|
      invariant forall j :: 0 <= j < i ==> !Upgrade(ss, idx, alternatives[j], pool, index, roomById)
    {
      assert alternatives[i] in alternatives;
      if RoomFree(alternatives[i], ss, idx, index) {
        forall x | Upgrade(ss, idx, x, pool, index, roomById)
          ensures CapacityOf(roomById, x) <= CapacityOf(roomById, alternatives[i])
        {
          assert x in alternatives;
          var j :| 0 <= j < |alternatives| && alternatives[j] == x;
          assert j >= i;
        }
        return Some(alternatives[i]);
      }
    }
    return None;
  }

  /** The larger rooms of the pool, largest first. */
  method Alternatives(ss: seq<SessionData>, idx: nat, pool: seq<int>, ghost index: ConflictIndex,
                      roomById: map<int, int>)
    returns (alternatives: seq<int>)
    requires idx < |ss|
    ensures forall x :: x in alternatives ==>
      (Upgrade(ss, idx, x, pool, index, roomById) <==> RoomFree(x, ss, idx, index))
    ensures forall x :: Upgrade(ss, idx, x, pool, index, roomById) ==> x in alternatives
    ensures forall i, j :: 0 <= i <= j < |alternatives| ==>
      CapacityOf(roomById, alternatives[j]) <= CapacityOf(roomById, alternatives[i])
  {
    hide *;
    var larger := Larger(pool, ss[idx].roomId, roomById);
    alternatives := StableSort(larger, LargestFirst(roomById));
    AlternativesFacts(ss, idx, pool, index, roomById);
    StableSortSorts(larger, LargestFirst(roomById));
    SortedLargestFirst(alternatives, roomById);
  }

  lemma AlternativesFacts(ss: seq<SessionData>, idx: nat, pool: seq<int>, index: ConflictIndex, roomById: map<int, int>)
    requires idx < |ss|
    ensures var alternatives := StableSort(Larger(pool, ss[idx].roomId, roomById), LargestFirst(roomById));
      && (forall x :: x in alternatives ==>
           (Upgrade(ss, idx, x, pool, index, roomById) <==> RoomFree(x, ss, idx, index)))
      && (forall x :: Upgrade(ss, idx, x, pool, index, roomById) ==> x in alternatives)
  {
    var larger := Larger(pool, ss[idx].roomId, roomById);
    var alternatives := StableSort(larger, LargestFirst(roomById));
    SameMultiset(larger, alternatives);
    hide RoomFree;
    assert forall x :: x in Elements(larger) <==> x in Elements(alternatives);
    assert forall x :: x in alternatives <==> x in Elements(larger);
  }

  lemma SortedLargestFirst(s: seq<int>, roomById: map<int, int>)
    requires SortedBy(s, LargestFirst(roomById))
    ensures forall i, j :: 0 <= i <= j < |s| ==> CapacityOf(roomById, s[j]) <= CapacityOf(roomById, s[i])
  {
    hide CapacityOf;
    forall i, j | 0 <= i <= j < |s| ensures CapacityOf(roomById, s[j]) <= CapacityOf(roomById, s[i]) {
      if i < j { assert LargestFirst(roomById)(s[i]) <= LargestFirst(roomById)(s[j]); }
    }
  }

  function Indices(n: nat): seq<int> { seq(n, i => i) }

  /** The weakest session that can move at all, and the largest room it can move to. */
  method FindUpgrade(ss: seq<SessionData>, pool: seq<int>, index: ConflictIndex, roomById: map<int, int>)
    returns (progressed: bool, idx: nat, altRoom: int)
    ensures progressed ==> Upgrade(ss, idx, altRoom, pool, index, roomById)
    ensures progressed ==> forall x :: Upgrade(ss, idx, x, pool, index, roomById) ==>
      CapacityOf(roomById, x) <= CapacityOf(roomById, altRoom)
    ensures progressed ==> idx < |ss| && forall i, x :: Upgrade(ss, i, x, pool, index, roomById) ==>
      0 <= i < |ss| && CapacityOf(roomById, ss[i].roomId) >= CapacityOf(roomById, ss[idx].roomId)
    ensures !progressed ==> forall i, x :: !Upgrade(ss, i, x, pool, index, roomById)
  {
    hide *;
    var order := WeakestOrder(ss, roomById);
    for p := 0 to |order|
      invariant forall q, x :: 0 <= q < p ==> !Upgrade(ss, order[q], x, pool, index, roomById)
    {
      assert order[p] in order;
      var best := BestRoom(ss, order[p], pool, index, roomById);
      if best.Some? {
        forall i, x | Upgrade(ss, i, x, pool, index, roomById)
          ensures 0 <= i < |ss| && CapacityOf(roomById, ss[i].roomId) >= CapacityOf(roomById, ss[order[p]].roomId)
        {
          UpgradeInRange(ss, i, x, pool, index, roomById);
          assert i in order;
          var q :| 0 <= q < |order| && order[q] == i;
          assert q >= p;
        }
        return true, order[p], best.value;
      }
    }
    forall i, x ensures !Upgrade(ss, i, x, pool, index, roomById) {
      if i in order {
        var q :| 0 <= q < |order| && order[q] == i;
      } else {
        OutOfRange(ss, i, x, pool, index, roomById);
      }
    }
    return false, 0, 0;
  }

  /** The session indices, smallest room first. */
  method WeakestOrder(ss: seq<SessionData>, roomById: map<int, int>) returns (order: seq<int>)
    ensures forall i :: i in order <==> 0 <= i < |ss|
    ensures forall p, q :: 0 <= p <= q < |order| ==> 0 <= order[p] < |ss| && 0 <= order[q] < |ss|
    ensures forall p, q :: 0 <= p <= q < |order| ==>
      CapacityOf(roomById, ss[order[p]].roomId) <= CapacityOf(roomById, ss[order[q]].roomId)
  {
    hide *;
    order := StableSort(Indices(|ss|), WeakestFirst(ss, roomById));
    OrderFacts(ss, roomById);
    Ordered(ss, roomById, order);
  }

  lemma UpgradeInRange(ss: seq<SessionData>, i: int, x: int, pool: seq<int>, index: ConflictIndex,
                       roomById: map<int, int>)
    requires Upgrade(ss, i, x, pool, index, roomById)
    ensures 0 <= i < |ss|
  {
  }

  lemma OutOfRange(ss: seq<SessionData>, i: int, x: int, pool: seq<int>, index: ConflictIndex, roomById: map<int, int>)
    requires !(0 <= i < |ss|)
    ensures !Upgrade(ss, i, x, pool, index, roomById)
  {
  }

  lemma OrderFacts(ss: seq<SessionData>, roomById: map<int, int>)
    ensures forall i :: i in StableSort(Indices(|ss|), WeakestFirst(ss, roomById)) <==> 0 <= i < |ss|
  {
    var order := StableSort(Indices(|ss|), WeakestFirst(ss, roomById));
    SameMultiset(Indices(|ss|), order);
    forall i ensures i in Indices(|ss|) <==> 0 <= i < |ss| {
      if 0 <= i < |ss| { assert Indices(|ss|)[i] == i; }
    }
    assert forall i :: i in order <==> i in Elements(Indices(|ss|));
  }

  lemma Ordered(ss: seq<SessionData>, roomById: map<int, int>, order: seq<int>)
    requires order == StableSort(Indices(|ss|), WeakestFirst(ss, roomById))
    ensures forall p, q :: 0 <= p <= q < |order| ==> 0 <= order[p] < |ss| && 0 <= order[q] < |ss|
    ensures forall p, q :: 0 <= p <= q < |order| ==>
      CapacityOf(roomById, ss[order[p]].roomId) <= CapacityOf(roomById, ss[order[q]].roomId)
  {
    hide StableSort, Indices, CapacityOf;
    StableSortSorts(Indices(|ss|), WeakestFirst(ss, roomById));
    OrderFacts(ss, roomById);
    SortedWeakestFirst(ss, roomById, order);
  }

  lemma SortedWeakestFirst(ss: seq<SessionData>, roomById: map<int, int>, order: seq<int>)
    requires SortedBy(order, WeakestFirst(ss, roomById)) && forall i :: i in order <==> 0 <= i < |ss|
    ensures forall p :: 0 <= p < |order| ==> 0 <= order[p] < |ss|
    ensures forall p, q :: 0 <= p <= q < |order| ==>
      CapacityOf(roomById, ss[order[p]].roomId) <= CapacityOf(roomById, ss[order[q]].roomId)
  {
    hide CapacityOf;
    forall p | 0 <= p < |order| ensures 0 <= order[p] < |ss| {
      assert order[p] in order;
    }
    forall p, q | 0 <= p <= q < |order|
      ensures CapacityOf(roomById, ss[order[p]].roomId) <= CapacityOf(roomById, ss[order[q]].roomId) {
      if p < q { assert WeakestFirst(ss, roomById)(order[p]) <= WeakestFirst(ss, roomById)(order[q]); }
    }
  }

  // ---------------------------------------------------------------- what one move changes

  lemma Associative<T>(a: seq<T>, b: seq<T>, c: seq<T>)
    ensures (a + b) + c == a + (b + c)
  {
  }

  lemma {:induction false} KeysOfConcat(a: seq<SessionData>, b: seq<SessionData>)
    ensures AllRoomKeys(a + b) == AllRoomKeys(a) + AllRoomKeys(b)
    ensures AllLecKeys(a + b) == AllLecKeys(a) + AllLecKeys(b)
  {
    if b == [] {
      assert a + b == a;
    } else {
      hide AllRoomKeys, AllLecKeys, RoomKeys, LecKeys;
      var front, s := b[..|b| - 1], b[|b| - 1];
      assert a + b == a + front + [s] && b == front + [s];
      KeysOfConcat(a, front);
      KeysStep(a + front, s);
      KeysStep(front, s);
      Associative(AllRoomKeys(a), AllRoomKeys(front), RoomKeys(s));
      Associative(AllLecKeys(a), AllLecKeys(front), LecKeys(s));
    }
  }

  lemma KeysOfOne(s: SessionData)
    ensures AllRoomKeys([s]) == RoomKeys(s) && AllLecKeys([s]) == LecKeys(s)
  {
    assert [s][..0] == [];
  }

  lemma KeysAround(a: seq<SessionData>, s: SessionData, b: seq<SessionData>)
    ensures AllRoomKeys(a + [s] + b) == AllRoomKeys(a) + RoomKeys(s) + AllRoomKeys(b)
    ensures AllLecKeys(a + [s] + b) == AllLecKeys(a) + LecKeys(s) + AllLecKeys(b)
  {
    KeysOfConcat(a + [s], b);
    KeysOfConcat(a, [s]);
    KeysOfOne(s);
  }

  lemma {:induction false} LecKeysIgnoreRoom(s: SessionData, room: int, n: nat)
    requires n <= |s.timeSlotIds|
    ensures LecKeysUpTo(s.(roomId := room), n) == LecKeysUpTo(s, n)
  {
    if n > 0 { LecKeysIgnoreRoom(s, room, n - 1); }
  }

  /** A session's room keys are as many in any room: one for each different slot. */
  lemma RoomKeyCount(s: SessionData, room: int)
    ensures |Elements(RoomKeys(s.(roomId := room)))| == |Elements(s.timeSlotIds)|
  {
    var t := s.(roomId := room);
    RoomKeysMembers(t);
    var toKey := map slot | slot in Elements(s.timeSlotIds) :: (room, slot);
    var toSlot := map k: (int, int) | k in Elements(RoomKeys(t)) :: k.1;
    InjectionBound(Elements(s.timeSlotIds), toKey, Elements(RoomKeys(t)));
    InjectionBound(Elements(RoomKeys(t)), toSlot, Elements(s.timeSlotIds));
  }

  /** Replacing part of a list by as many fresh entries, no fewer of them different, adds no repeat. */
  lemma RepeatsSwap<T>(a: seq<T>, x: seq<T>, y: seq<T>, b: seq<T>)
    requires |x| == |y| && |Elements(y)| >= |Elements(x)| && Disjoint(y, a) && Disjoint(y, b)
    ensures Repeats(a + y + b) <= Repeats(a + x + b)
  {
    var rest := Elements(a) + Elements(b);
    assert Elements(a + x + b) == rest + (Elements(x) - rest);
    assert Elements(a + y + b) == rest + Elements(y);
    assert rest !! Elements(y);
    SubsetBound(Elements(x) - rest, Elements(x));
  }

  /** Moving a session into a room that nobody else holds at its slots never adds a violation. */
  lemma MoveToFreeRoom(a: seq<SessionData>, s: SessionData, b: seq<SessionData>, room: int)
    requires forall slot :: slot in s.timeSlotIds ==> (room, slot) !in AllRoomKeys(a) && (room, slot) !in AllRoomKeys(b)
    ensures HardCount(a + [s.(roomId := room)] + b) <= HardCount(a + [s] + b)
  {
    hide Repeats, AllRoomKeys, AllLecKeys, LecKeysUpTo, RoomKeys, Elements, Disjoint;
    var t := s.(roomId := room);
    KeysAround(a, s, b);
    KeysAround(a, t, b);
    LecKeysIgnoreRoom(s, room, |s.timeSlotIds|);
    assert s.(roomId := s.roomId) == s;
    RoomKeyCount(s, s.roomId);
    RoomKeyCount(s, room);
    FreeKeysDisjoint(t, AllRoomKeys(a));
    FreeKeysDisjoint(t, AllRoomKeys(b));
    RoomKeysLength(s);
    RoomKeysLength(t);
    RepeatsSwap(AllRoomKeys(a), RoomKeys(s), RoomKeys(t), AllRoomKeys(b));
  }

  lemma FreeKeysDisjoint(t: SessionData, xs: seq<(int, int)>)
    requires forall slot :: slot in t.timeSlotIds ==> (t.roomId, slot) !in xs
    ensures Disjoint(RoomKeys(t), xs)
  {
    RoomKeysMembers(t);
    forall k: (int, int) | k in RoomKeys(t) ensures k !in xs {
      var slot := k.1;
      assert slot in t.timeSlotIds && k == (t.roomId, slot);
    }
  }

  lemma RoomKeysLength(s: SessionData)
    ensures |RoomKeys(s)| == |s.timeSlotIds|
  {
  }

  lemma SiblingKeys(ss: seq<SessionData>, idx: nat, k: (int, int))
    requires idx < |ss| && !HeldBySibling(k.0, k.1, ss, idx)
    ensures k !in AllRoomKeys(ss[..idx]) && k !in AllRoomKeys(ss[idx + 1..])
  {
    KeyOwner(ss[..idx], k);
    KeyOwner(ss[idx + 1..], k);
    assert forall i :: idx < i < |ss| ==> ss[i] == ss[idx + 1..][i - idx - 1];
  }

  lemma {:induction false} KeyOwner(ss: seq<SessionData>, k: (int, int))
    ensures k in AllRoomKeys(ss) <==> exists i :: 0 <= i < |ss| && ss[i].roomId == k.0 && k.1 in ss[i].timeSlotIds
  {
    if ss != [] {
      var n := |ss| - 1;
      KeyOwner(ss[..n], k);
      RoomKeysMembers(ss[n]);
    }
  }

  // ---------------------------------------------------------------- capacity repair, in place

  /** Only rooms differ, and every new room is out of the pool. */
  ghost predicate RoomsMoved(given: seq<SessionData>, placed: seq<SessionData>, pool: seq<int>) {
    |placed| == |given| && forall k :: 0 <= k < |given| ==>
      placed[k] == given[k].(roomId := placed[k].roomId) &&
        (placed[k].roomId == given[k].roomId || placed[k].roomId in pool)
  }

  lemma {:induction false} CapacityOfMove(ss: seq<SessionData>, idx: nat, room: int, roomById: map<int, int>)
    requires idx < |ss|
    ensures CombinedCapacity(Move(ss, idx, room), roomById)
         == CombinedCapacity(ss, roomById) - CapacityOf(roomById, ss[idx].roomId) + CapacityOf(roomById, room)
  {
    var n := |ss| - 1;
    if idx < n {
      CapacityOfMove(ss[..n], idx, room, roomById);
      assert Move(ss, idx, room)[..n] == Move(ss[..n], idx, room);
    } else {
      assert Move(ss, idx, room)[..n] == ss[..n];
    }
  }

  /** What one accepted upgrade does: more seats, no new violation around it, repaired sessions stay repaired. */
  lemma UpgradeStep(ss: seq<SessionData>, idx: nat, room: int, pool: seq<int>, index: ConflictIndex,
                    roomById: map<int, int>, before: seq<SessionData>, after: seq<SessionData>, flags: seq<bool>)
    requires Upgrade(ss, idx, room, pool, index, roomById) && IndexOf(index, before + after)
    requires Repaired(ss, flags, index)
    ensures CombinedCapacity(Move(ss, idx, room), roomById) > CombinedCapacity(ss, roomById)
    ensures HardCount(before + Move(ss, idx, room) + after) <= HardCount(before + ss + after)
    ensures Repaired(Move(ss, idx, room), flags, index)
  {
    CapacityOfMove(ss, idx, room, roomById);
    MoveKeepsCount(ss, idx, room, pool, index, roomById, before, after);
    MoveKeepsRepaired(ss, idx, room, pool, index, roomById, flags);
  }

  lemma MoveKeepsRepaired(ss: seq<SessionData>, idx: nat, room: int, pool: seq<int>, index: ConflictIndex,
                          roomById: map<int, int>, flags: seq<bool>)
    requires Upgrade(ss, idx, room, pool, index, roomById) && Repaired(ss, flags, index)
    ensures Repaired(Move(ss, idx, room), flags, index)
  {
    var t := ss[idx].(roomId := room);
    if !flags[idx] { assert Clean(t, index, {}); }
  }

  lemma MoveKeepsCount(ss: seq<SessionData>, idx: nat, room: int, pool: seq<int>, index: ConflictIndex,
                       roomById: map<int, int>, before: seq<SessionData>, after: seq<SessionData>)
    requires Upgrade(ss, idx, room, pool, index, roomById) && IndexOf(index, before + after)
    ensures HardCount(before + Move(ss, idx, room) + after) <= HardCount(before + ss + after)
  {
    var a, s, b := before + ss[..idx], ss[idx], ss[idx + 1..] + after;
    assert before + ss + after == a + [s] + b;
    assert before + Move(ss, idx, room) + after == a + [s.(roomId := room)] + b;
    KeysOfConcat(before, ss[..idx]);
    KeysOfConcat(ss[idx + 1..], after);
    KeysOfConcat(before, after);
    hide AllRoomKeys, HardCount;
    forall slot | slot in s.timeSlotIds ensures (room, slot) !in AllRoomKeys(a) && (room, slot) !in AllRoomKeys(b) {
      SiblingKeys(ss, idx, (room, slot));
      assert (room, slot) !in index.roomTimeUsed.Keys;
      assert (room, slot) !in Elements(AllRoomKeys(before + after));
    }
    MoveToFreeRoom(a, s, b, room);
  }

  /** The pass runs only on flexible genes of free-room candidates that are split over several sessions. */
  predicate NeedsSeats(kind: Kind, c: Candidate, ss: seq<SessionData>, roomById: map<int, int>) {
    kind == FLEXIBLE && c.roomId.None? && |ss| > 1 && |c.possibleRoomIds| > 0 &&
    CombinedCapacity(ss, roomById) < c.effectiveStudentCount
  }

  /** The weakest session that can move at all, and the largest room that it can move to. */
  ghost predicate BestUpgrade(ss: seq<SessionData>, idx: int, room: int, pool: seq<int>, index: ConflictIndex,
                              roomById: map<int, int>) {
    && Upgrade(ss, idx, room, pool, index, roomById)
    && (forall x :: Upgrade(ss, idx, x, pool, index, roomById) ==>
          CapacityOf(roomById, x) <= CapacityOf(roomById, room))
    && (forall i, x :: Upgrade(ss, i, x, pool, index, roomById) ==>
          0 <= i < |ss| && CapacityOf(roomById, ss[i].roomId) >= CapacityOf(roomById, ss[idx].roomId))
  }

  ghost predicate PassStops(c: Candidate, ss: seq<SessionData>, index: ConflictIndex, roomById: map<int, int>) {
    CombinedCapacity(ss, roomById) >= c.effectiveStudentCount ||
    forall i, x :: !Upgrade(ss, i, x, c.possibleRoomIds, index, roomById)
  }

  /** What at most n rounds of the pass may make of the sessions. */
  ghost predicate MayPass(c: Candidate, ss: seq<SessionData>, t: seq<SessionData>, index: ConflictIndex,
                          roomById: map<int, int>, n: nat)
    decreases n
  {
    if n == 0 || PassStops(c, ss, index, roomById) then t == ss
    else
      exists idx, room :: BestUpgrade(ss, idx, room, c.possibleRoomIds, index, roomById) && 0 <= idx < |ss| &&
        MayPass(c, Move(ss, idx, room), t, index, roomById, n - 1)
  }

  /** With room data, a gene that needs seats goes through the pass; any other gene keeps its rooms. */
  ghost predicate Seated(c: Candidate, kind: Kind, mid: seq<SessionData>, ss: seq<SessionData>, index: ConflictIndex,
                         roomById: Option<map<int, int>>) {
    if roomById.Some? && NeedsSeats(kind, c, mid, roomById.value)
    then MayPass(c, mid, ss, index, roomById.value, |mid|)
    else ss == mid
  }

  /** What the remaining rounds make of the sessions is what all rounds make of the first ones. */
  ghost predicate OnThePass(c: Candidate, start: seq<SessionData>, ss: seq<SessionData>, index: ConflictIndex,
                            roomById: map<int, int>, n: nat, left: nat) {
    forall t :: MayPass(c, ss, t, index, roomById, left) ==> MayPass(c, start, t, index, roomById, n)
  }

  lemma PassBegins(c: Candidate, ss: seq<SessionData>, index: ConflictIndex, roomById: map<int, int>, n: nat)
    ensures OnThePass(c, ss, ss, index, roomById, n, n)
  {
    hide MayPass;
  }

  lemma PassGoesOn(c: Candidate, start: seq<SessionData>, ss: seq<SessionData>, index: ConflictIndex,
                   roomById: map<int, int>, n: nat, left: nat, idx: nat, room: int)
    requires OnThePass(c, start, ss, index, roomById, n, left) && left > 0
    requires CombinedCapacity(ss, roomById) < c.effectiveStudentCount && idx < |ss|
    requires BestUpgrade(ss, idx, room, c.possibleRoomIds, index, roomById)
    ensures OnThePass(c, start, Move(ss, idx, room), index, roomById, n, left - 1)
  {
    hide CombinedCapacity, Upgrade, Move;
    forall t | MayPass(c, Move(ss, idx, room), t, index, roomById, left - 1)
      ensures MayPass(c, start, t, index, roomById, n) {
      assert MayPass(c, ss, t, index, roomById, left);
    }
  }

  lemma PassIsOver(c: Candidate, start: seq<SessionData>, ss: seq<SessionData>, index: ConflictIndex,
                   roomById: map<int, int>, n: nat, left: nat)
    requires OnThePass(c, start, ss, index, roomById, n, left) && (left == 0 || PassStops(c, ss, index, roomById))
    ensures MayPass(c, start, ss, index, roomById, n)
  {
    hide PassStops;
    assert MayPass(c, ss, ss, index, roomById, left);
  }

  lemma PassStopsBy(c: Candidate, ss: seq<SessionData>, index: ConflictIndex, roomById: map<int, int>)
    requires CombinedCapacity(ss, roomById) >= c.effectiveStudentCount ||
      forall i, x :: !Upgrade(ss, i, x, c.possibleRoomIds, index, roomById)
    ensures PassStops(c, ss, index, roomById)
  {
    hide CombinedCapacity, Upgrade;
  }

  lemma BestUpgradeBy(ss: seq<SessionData>, idx: nat, room: int, pool: seq<int>, index: ConflictIndex,
                      roomById: map<int, int>)
    requires Upgrade(ss, idx, room, pool, index, roomById) && idx < |ss|
    requires forall x :: Upgrade(ss, idx, x, pool, index, roomById) ==>
      CapacityOf(roomById, x) <= CapacityOf(roomById, room)
    requires forall i, x :: Upgrade(ss, i, x, pool, index, roomById) ==>
      0 <= i < |ss| && CapacityOf(roomById, ss[i].roomId) >= CapacityOf(roomById, ss[idx].roomId)
    ensures BestUpgrade(ss, idx, room, pool, index, roomById)
  {
    hide Upgrade, CapacityOf;
  }

  /** Why the pass stopped: enough seats, nothing left to upgrade, or one upgrade per session spent. */
  ghost predicate PassEnded(c: Candidate, ss: seq<SessionData>, index: ConflictIndex, roomById: map<int, int>,
                            upgrades: nat) {
    || CombinedCapacity(ss, roomById) >= c.effectiveStudentCount
    || (forall i, x :: !Upgrade(ss, i, x, c.possibleRoomIds, index, roomById))
    || upgrades == |ss|
  }

  /** session.roomId = room */
  method MoveSession(ss: seq<Session>, idx: nat, room: int)
    requires idx < |ss| && NoDup(ss)
    modifies ss[idx]
    ensures SessionValues(ss) == Move(old(SessionValues(ss)), idx, room)
  {
    ghost var values := SessionValues(ss);
    ss[idx].roomId := room;
    forall k | 0 <= k < |ss| ensures ss[k].Data() == Move(values, idx, room)[k] {
    }
  }

  /** Moves weak sessions to larger rooms, assigning the rooms of the session objects in place. */
  method RepairCapacityShortfall(gene: Gene, c: Candidate, index: ConflictIndex, roomById: map<int, int>,
                                 ghost before: seq<SessionData>, ghost after: seq<SessionData>, ghost flags: seq<bool>)
    returns (ghost upgrades: nat)
    requires IndexOf(index, before + after) && Repaired(gene.Data().sessions, flags, index) && NoDup(gene.sessions)
    modifies Elements(gene.sessions)
    ensures RoomsMoved(old(gene.Data()).sessions, gene.Data().sessions, c.possibleRoomIds)
    ensures Repaired(gene.Data().sessions, flags, index)
    ensures CombinedCapacity(gene.Data().sessions, roomById)
         >= CombinedCapacity(old(gene.Data()).sessions, roomById) + upgrades
    ensures HardCount(before + gene.Data().sessions + after) <= HardCount(before + old(gene.Data()).sessions + after)
    ensures upgrades == 0 ==> gene.Data() == old(gene.Data())
    ensures if NeedsSeats(gene.kind, c, old(gene.Data()).sessions, roomById)
            then PassEnded(c, gene.Data().sessions, index, roomById, upgrades) else upgrades == 0
    ensures NeedsSeats(gene.kind, c, old(gene.Data()).sessions, roomById) ==>
      MayPass(c, old(gene.Data()).sessions, gene.Data().sessions, index, roomById, |gene.sessions|)
  {
    hide *;
    upgrades := 0;
    ghost var start := SessionValues(gene.sessions);
    PassStarts(start, c.possibleRoomIds, index, roomById, before, after, flags);
    if !NeedsSeats(gene.kind, c, SessionValues(gene.sessions), roomById) { return; }
    PassBegins(c, start, index, roomById, |gene.sessions|);
    for iter := 0 to |gene.sessions|
      invariant upgrades == iter
      invariant OnThePass(c, start, SessionValues(gene.sessions), index, roomById, |gene.sessions|,
        |gene.sessions| - iter)
      invariant PassSoFar(start, SessionValues(gene.sessions), c.possibleRoomIds, index, roomById, before, after,
        flags, upgrades)
    {
      var values := SessionValues(gene.sessions);
      PassFacts(start, values, c.possibleRoomIds, index, roomById, before, after, flags, upgrades);
      if CombinedCapacity(values, roomById) >= c.effectiveStudentCount {
        PassEnds(c, values, index, roomById, upgrades);
        PassStopsBy(c, values, index, roomById);
        PassIsOver(c, start, values, index, roomById, |gene.sessions|, |gene.sessions| - iter);
        return;
      }
      var progressed, idx, altRoom := FindUpgrade(values, c.possibleRoomIds, index, roomById);
      if !progressed {
        PassEnds(c, values, index, roomById, upgrades);
        PassStopsBy(c, values, index, roomById);
        PassIsOver(c, start, values, index, roomById, |gene.sessions|, |gene.sessions| - iter);
        return;
      }
      BestUpgradeBy(values, idx, altRoom, c.possibleRoomIds, index, roomById);
      PassGoesOn(c, start, values, index, roomById, |gene.sessions|, |gene.sessions| - iter, idx, altRoom);
      ElementAt(gene.sessions, idx);
      PassStep(start, values, c.possibleRoomIds, index, roomById, before, after, flags, upgrades, idx, altRoom);
      MoveSession(gene.sessions, idx, altRoom);
      upgrades := upgrades + 1;
    }
    PassFacts(start, SessionValues(gene.sessions), c.possibleRoomIds, index, roomById, before, after, flags, upgrades);
    PassEnds(c, SessionValues(gene.sessions), index, roomById, upgrades);
    PassIsOver(c, start, SessionValues(gene.sessions), index, roomById, |gene.sessions|, 0);
  }

  /** The sessions after some upgrades, each of which gained a seat and cost no violation. */
  ghost predicate PassSoFar(start: seq<SessionData>, ss: seq<SessionData>, pool: seq<int>, index: ConflictIndex,
                            roomById: map<int, int>,
                            before: seq<SessionData>, after: seq<SessionData>, flags: seq<bool>, upgrades: nat) {
    && RoomsMoved(start, ss, pool) && Repaired(ss, flags, index)
    && CombinedCapacity(ss, roomById) >= CombinedCapacity(start, roomById) + upgrades
    && HardCount(before + ss + after) <= HardCount(before + start + after)
    && (upgrades == 0 ==> ss == start)
  }

  lemma PassStarts(ss: seq<SessionData>, pool: seq<int>, index: ConflictIndex, roomById: map<int, int>,
                   before: seq<SessionData>, after: seq<SessionData>, flags: seq<bool>)
    requires Repaired(ss, flags, index)
    ensures PassSoFar(ss, ss, pool, index, roomById, before, after, flags, 0) && RoomsMoved(ss, ss, pool)
  {
    hide HardCount, CombinedCapacity, Repaired;
  }

  lemma PassFacts(start: seq<SessionData>, ss: seq<SessionData>, pool: seq<int>, index: ConflictIndex,
                  roomById: map<int, int>,
                  before: seq<SessionData>, after: seq<SessionData>, flags: seq<bool>, upgrades: nat)
    requires PassSoFar(start, ss, pool, index, roomById, before, after, flags, upgrades)
    ensures RoomsMoved(start, ss, pool) && Repaired(ss, flags, index)
    ensures CombinedCapacity(ss, roomById) >= CombinedCapacity(start, roomById) + upgrades
    ensures HardCount(before + ss + after) <= HardCount(before + start + after)
    ensures upgrades == 0 ==> ss == start
  {
    hide HardCount, CombinedCapacity, Repaired, RoomsMoved;
  }

  lemma PassStep(start: seq<SessionData>, ss: seq<SessionData>, pool: seq<int>, index: ConflictIndex,
                 roomById: map<int, int>, before: seq<SessionData>, after: seq<SessionData>, flags: seq<bool>,
                 upgrades: nat, idx: nat, room: int)
    requires PassSoFar(start, ss, pool, index, roomById, before, after, flags, upgrades)
    requires Upgrade(ss, idx, room, pool, index, roomById) && IndexOf(index, before + after)
    ensures PassSoFar(start, Move(ss, idx, room), pool, index, roomById, before, after, flags, upgrades + 1)
  {
    UpgradeStep(ss, idx, room, pool, index, roomById, before, after, flags);
    MoveInPool(start, ss, idx, room, pool, index, roomById);
    hide HardCount, CombinedCapacity, Repaired, RoomsMoved, Upgrade, IndexOf, Move;
  }

  lemma MoveInPool(start: seq<SessionData>, ss: seq<SessionData>, idx: nat, room: int, pool: seq<int>,
                   index: ConflictIndex, roomById: map<int, int>)
    requires Upgrade(ss, idx, room, pool, index, roomById) && RoomsMoved(start, ss, pool)
    ensures RoomsMoved(start, Move(ss, idx, room), pool)
  {
  }

  lemma PassEnds(c: Candidate, ss: seq<SessionData>, index: ConflictIndex, roomById: map<int, int>, upgrades: nat)
    requires CombinedCapacity(ss, roomById) >= c.effectiveStudentCount || upgrades == |ss| ||
             forall i, x :: !Upgrade(ss, i, x, c.possibleRoomIds, index, roomById)
    ensures PassEnded(c, ss, index, roomById, upgrades)
  {
    hide CombinedCapacity, Upgrade;
  }

  // ---------------------------------------------------------------- one gene among the others

  lemma {:induction false} AllSessionsConcat(a: seq<GeneData>, b: seq<GeneData>, cm: map<int, Candidate>)
    ensures AllSessions(a + b, cm) == AllSessions(a, cm) + AllSessions(b, cm)
  {
    if b == [] {
      assert a + b == a;
    } else {
      assert (a + b)[..|a + b| - 1] == a + b[..|b| - 1];
      AllSessionsConcat(a, b[..|b| - 1], cm);
    }
  }

  lemma {:induction false} OthersConcat(a: seq<GeneData>, b: seq<GeneData>, e: int)
    ensures OtherSessions(a + b, e) == OtherSessions(a, e) + OtherSessions(b, e)
  {
    if b == [] {
      assert a + b == a;
    } else {
      assert (a + b)[..|a + b| - 1] == a + b[..|b| - 1];
      OthersConcat(a, b[..|b| - 1], e);
    }
  }

  lemma {:induction false} OthersAreAll(a: seq<GeneData>, cm: map<int, Candidate>, e: int)
    requires forall i :: 0 <= i < |a| ==> a[i].offeringId in cm && a[i].offeringId != e
    ensures OtherSessions(a, e) == AllSessions(a, cm)
  {
    if a != [] { OthersAreAll(a[..|a| - 1], cm, e); }
  }

  /** In an aligned chromosome the sessions of the other offerings are those before and after the locus. */
  lemma OthersOfLocus(cs: seq<Candidate>, lookup: SlotLookup, vals: seq<GeneData>, i: nat)
    requires CandidatesOk(cs) && ChromosomeOk(cs, lookup, vals) && i < |vals|
    ensures OtherSessions(vals, vals[i].offeringId)
         == AllSessions(vals[..i], CandidateMap(cs)) + AllSessions(vals[i + 1..], CandidateMap(cs))
    ensures AllSessions(vals, CandidateMap(cs))
         == AllSessions(vals[..i], CandidateMap(cs)) + vals[i].sessions + AllSessions(vals[i + 1..], CandidateMap(cs))
    ensures AllSessions(vals[..i + 1], CandidateMap(cs)) == AllSessions(vals[..i], CandidateMap(cs)) + vals[i].sessions
  {
    hide *;
    var cm, e, a, b := CandidateMap(cs), vals[i].offeringId, vals[..i], vals[i + 1..];
    OffersDistinct(cs, lookup, vals, i);
    assert vals == a + [vals[i]] + b && vals[..i + 1] == a + [vals[i]];
    SplitAround(a, vals[i], b, cm, e);
  }

  lemma SplitAround(a: seq<GeneData>, g: GeneData, b: seq<GeneData>, cm: map<int, Candidate>, e: int)
    requires g.offeringId == e && e in cm
    requires forall j :: 0 <= j < |a| ==> a[j].offeringId in cm && a[j].offeringId != e
    requires forall j :: 0 <= j < |b| ==> b[j].offeringId in cm && b[j].offeringId != e
    ensures OtherSessions(a + [g] + b, e) == AllSessions(a, cm) + AllSessions(b, cm)
    ensures AllSessions(a + [g] + b, cm) == AllSessions(a, cm) + g.sessions + AllSessions(b, cm)
    ensures AllSessions(a + [g], cm) == AllSessions(a, cm) + g.sessions
  {
    hide OtherSessions, AllSessions;
    OthersAreAll(a, cm, e);
    OthersAreAll(b, cm, e);
    OthersConcat(a + [g], b, e);
    OthersConcat(a, [g], e);
    AllSessionsConcat(a + [g], b, cm);
    AllSessionsConcat(a, [g], cm);
    OneGene(g, cm, e);
  }

  lemma OneGene(g: GeneData, cm: map<int, Candidate>, e: int)
    ensures OtherSessions([g], e) == if g.offeringId == e then [] else g.sessions
    ensures AllSessions([g], cm) == if g.offeringId in cm then g.sessions else []
  {
    assert [g][..0] == [];
  }

  lemma OffersDistinct(cs: seq<Candidate>, lookup: SlotLookup, vals: seq<GeneData>, i: nat)
    requires CandidatesOk(cs) && ChromosomeOk(cs, lookup, vals) && i < |vals|
    ensures forall j :: 0 <= j < |vals| ==> vals[j].offeringId in CandidateMap(cs)
    ensures forall j :: 0 <= j < |vals| && j != i ==> vals[j].offeringId != vals[i].offeringId
  {
    hide CandidateOk, SessionsOk;
    forall j | 0 <= j < |vals|
      ensures vals[j].offeringId == cs[j].offeringId && vals[j].offeringId in CandidateMap(cs) {
      assert GeneOk(cs[j], lookup, vals[j]);
      AlignedSessions(cs, lookup, vals, j);
    }
  }

  /** Sessions that were not left to the last resort collide with nobody outside and with no sibling. */
  ghost predicate Settled(others: seq<SessionData>, ss: seq<SessionData>, flags: seq<bool>) {
    && |flags| == |ss|
    && (forall p, k :: 0 <= p < |others| && 0 <= k < |ss| && !flags[k] ==> Apart(others[p], ss[k]))
    && (forall j, k :: 0 <= j < k < |ss| && !flags[k] ==> Apart(ss[j], ss[k]))
  }

  lemma RepairedIsSettled(others: seq<SessionData>, ss: seq<SessionData>, flags: seq<bool>, index: ConflictIndex)
    requires IndexOf(index, others) && Repaired(ss, flags, index)
    ensures Settled(others, ss, flags)
  {
    hide IndexOf, Clean;
    forall p, k | 0 <= p < |others| && 0 <= k < |ss| && !flags[k] ensures Apart(others[p], ss[k]) {
      CleanIsApart(ss[k], index, {}, others);
    }
    forall j, k | 0 <= j < k < |ss| && !flags[k] ensures Apart(ss[j], ss[k]) {
      assert NoSharedSlot(ss[j], ss[k]);
    }
  }

  lemma RoomsMovedOk(c: Candidate, lookup: SlotLookup, given: seq<SessionData>, placed: seq<SessionData>)
    requires CandidateOk(c) && SessionsOk(c, lookup, given) && RoomsMoved(given, placed, c.possibleRoomIds) &&
      !c.isFixedRoom
    ensures SessionsOk(c, lookup, placed)
  {
    forall k | 0 <= k < |placed| ensures SessionOk(c, lookup, k, placed[k]) {
      assert SessionOk(c, lookup, k, given[k]);
    }
  }

  /** One gene was repaired step by step against the sessions of the other genes, its last resorts were earned, and
      the capacity pass moved only rooms. */
  ghost predicate GeneEarned(c: Candidate, lookup: SlotLookup, roomById: Option<map<int, int>>, g: GeneData,
                             ss: seq<SessionData>, flags: seq<bool>, others: seq<SessionData>) {
    exists index, mid :: IndexOf(index, others) && Stepped(c, lookup, g.kind, g.sessions, mid, flags, index) &&
      Earned(c, lookup, g.kind, g.sessions, ss, flags, index) && RoomsMoved(mid, ss, c.possibleRoomIds) &&
      Seated(c, g.kind, mid, ss, index, roomById)
  }

  lemma GeneIsEarned(c: Candidate, lookup: SlotLookup, roomById: Option<map<int, int>>, g: GeneData,
                     mid: seq<SessionData>, ss: seq<SessionData>, flags: seq<bool>, others: seq<SessionData>,
                     index: ConflictIndex)
    requires IndexOf(index, others) && Earned(c, lookup, g.kind, g.sessions, mid, flags, index)
    requires Stepped(c, lookup, g.kind, g.sessions, mid, flags, index) && RoomsMoved(mid, ss, c.possibleRoomIds)
    requires Seated(c, g.kind, mid, ss, index, roomById)
    ensures GeneEarned(c, lookup, roomById, g, ss, flags, others)
  {
    hide Stepped, IndexOf, Exhausted, SlotsOf, Seated;
    EarnedAfterMoves(c, lookup, g.kind, g.sessions, mid, ss, flags, index);
  }

  lemma NotSeated(c: Candidate, kind: Kind, ss: seq<SessionData>, index: ConflictIndex,
                  roomById: Option<map<int, int>>)
    requires roomById.None? || !NeedsSeats(kind, c, ss, roomById.value)
    ensures Seated(c, kind, ss, ss, index, roomById)
  {
    hide MayPass, NeedsSeats;
  }

  lemma PassSeats(c: Candidate, kind: Kind, mid: seq<SessionData>, ss: seq<SessionData>, index: ConflictIndex,
                  roomById: Option<map<int, int>>)
    requires roomById.Some?
    requires if NeedsSeats(kind, c, mid, roomById.value) then MayPass(c, mid, ss, index, roomById.value, |mid|)
             else ss == mid
    ensures Seated(c, kind, mid, ss, index, roomById)
  {
    hide MayPass, NeedsSeats;
  }

  lemma NoMove(ss: seq<SessionData>, pool: seq<int>)
    ensures RoomsMoved(ss, ss, pool)
  {
  }

  /** for (const s of newSessions) s.roomId = originalRoom */
  method WriteMask(ss: seq<Session>, room: int)
    modifies Elements(ss)
    ensures SessionValues(ss) == MaskRooms(old(SessionValues(ss)), room)
  {
    ghost var values := SessionValues(ss);
    for k := 0 to |ss|
      invariant forall j :: 0 <= j < |ss| ==> ss[j].Data() == values[j] || ss[j].Data() == values[j].(roomId := room)
      invariant forall j :: 0 <= j < k ==> ss[j].roomId == room
    {
      ss[k].roomId := room;
    }
  }

  /** Repairs locus i of a chromosome in place: the gene gets a new list of old or new sessions. */
  method RepairGene(repaired: Chromosome, i: nat, cs: seq<Candidate>, lookup: SlotLookup,
                    roomById: Option<map<int, int>>, ghost before: seq<SessionData>, ghost after: seq<SessionData>)
    returns (ghost flags: seq<bool>)
    requires LookupOk(lookup) && CandidatesOk(cs) && Separate(repaired) && i < |repaired|
    requires ChromosomeOk(cs, lookup, Value(repaired))
    requires OtherSessions(Value(repaired), cs[i].offeringId) == before + after
    modifies repaired[i], Elements(repaired[i].sessions)
    ensures NoDup(repaired[i].sessions) &&
      forall s :: s in repaired[i].sessions ==> s in old(repaired[i].sessions) || fresh(s)
    ensures GeneOk(cs[i], lookup, repaired[i].Data())
    ensures Settled(before + after, repaired[i].Data().sessions, flags)
    ensures GeneEarned(cs[i], lookup, roomById, old(repaired[i].Data()), repaired[i].Data().sessions, flags,
      before + after)
  {
    hide CandidateOk, SessionsOk, IndexOf, Repaired, LookupOk, OtherSessions, NeedsSeats, PassEnded,
         CombinedCapacity, HardCount, RoomsMoved, Settled, CandidateMap, Earned, GeneEarned, NoDup, Stepped, MayPass,
         Seated;
    var candidateMap := CandidateMap(cs);
    CandidateMapAt(cs, i);
    var gene := repaired[i];
    ghost var g0 := gene.Data();
    assert GeneOk(cs[i], lookup, g0) && g0 == Value(repaired)[i];
    var c := candidateMap[gene.offeringId];
    var index := BuildConflictIndex(Value(repaired), gene.offeringId);
    ghost var own := gene.sessions;
    var newSessions;
    newSessions, flags := PlaceSessions(gene, c, index, lookup, g0);
    assert gene.sessions == own;
    gene.sessions := newSessions;
    ghost var mid := SessionValues(gene.sessions);
    NoMove(mid, c.possibleRoomIds);
    if roomById.None? { NotSeated(c, gene.kind, mid, index, roomById); }
    if roomById.Some? {
      ghost var upgrades := RepairCapacityShortfall(gene, c, index, roomById.value, before, after, flags);
      PassSeats(c, gene.kind, mid, gene.Data().sessions, index, roomById);
      if upgrades > 0 {
        OnlyFlexible(gene.kind, c, mid, roomById.value);
        RoomsMovedOk(c, lookup, mid, gene.Data().sessions);
      }
    }
    RepairedIsSettled(before + after, gene.Data().sessions, flags, index);
    GeneIsEarned(c, lookup, roomById, g0, mid, gene.Data().sessions, flags, before + after, index);
  }

  /** The same for a whole chromosome: the other loci keep their objects and values, and no object is shared. */
  method RepairLocus(repaired: Chromosome, i: nat, cs: seq<Candidate>, lookup: SlotLookup,
                     roomById: Option<map<int, int>>,
                     ghost before: seq<SessionData>, ghost after: seq<SessionData>, ghost vals: seq<GeneData>)
    returns (ghost flags: seq<bool>, ghost g: GeneData)
    requires LookupOk(lookup) && CandidatesOk(cs) && Separate(repaired) && i < |repaired| && vals == Value(repaired)
    requires ChromosomeOk(cs, lookup, vals) && OtherSessions(vals, cs[i].offeringId) == before + after
    modifies repaired[i], Elements(repaired[i].sessions)
    ensures Value(repaired) == vals[i := g] && Separate(repaired)
    ensures forall s :: s in Objects(repaired) ==> s in old(Objects(repaired)) || fresh(s)
    ensures GeneOk(cs[i], lookup, g) && Settled(before + after, g.sessions, flags)
    ensures GeneEarned(cs[i], lookup, roomById, vals[i], g.sessions, flags, before + after)
  {
    hide CandidatesOk, LookupOk, ChromosomeOk, OtherSessions, Settled, GeneEarned, GeneOk, Separate, Parts, Value,
         DisjointParts;
    SeparateParts(repaired);
    ghost var parts, objects := Parts(repaired), Objects(repaired);
    assert forall s :: s in objects ==> allocated(s);
    flags := RepairGene(repaired, i, cs, lookup, roomById, before, after);
    g := repaired[i].Data();
    forall j | 0 <= j < |repaired| && j != i ensures repaired[j].sessions == parts[j] && repaired[j].Data() == vals[j] {
      OtherPart(repaired, parts, objects, i, j);
    }
    OthersKept(repaired, i, vals, parts, objects, g);
  }

  ghost predicate DisjointParts(c: Chromosome, parts: seq<seq<Session>>, objects: set<Session>) {
    && |parts| == |c| && NoDup(c)
    && (forall i :: 0 <= i < |parts| ==> NoDup(parts[i]) && Elements(parts[i]) <= objects)
    && (forall i, j, s :: 0 <= i < j < |parts| && s in parts[i] ==> s !in parts[j])
  }

  lemma SeparateParts(c: Chromosome)
    requires Separate(c)
    ensures DisjointParts(c, Parts(c), Objects(c))
  {
  }

  lemma OtherPart(c: Chromosome, parts: seq<seq<Session>>, objects: set<Session>, i: nat, j: nat)
    requires DisjointParts(c, parts, objects) && i < |c| && j < |c| && i != j
    ensures c[i] != c[j] && forall s :: s in parts[j] ==> s !in parts[i]
  {
  }

  /** Values and separation after locus i was given other sessions, of its own or new ones. */
  lemma OthersKept(c: Chromosome, i: nat, vals: seq<GeneData>, parts: seq<seq<Session>>, objects: set<Session>,
                   g: GeneData)
    requires i < |c| == |vals| && DisjointParts(c, parts, objects)
    requires forall j :: 0 <= j < |c| && j != i ==> c[j].sessions == parts[j] && c[j].Data() == vals[j]
    requires g == c[i].Data() && NoDup(c[i].sessions)
    requires forall s :: s in c[i].sessions ==> s in parts[i] || s !in objects
    ensures Value(c) == vals[i := g] && Separate(c)
    ensures Objects(c) <= objects + Elements(c[i].sessions)
  {
    ValueIs(c, vals[i := g]);
    hide Value;
  }

  /** The repaired sessions of a gene, a fixed gene's rooms written back by the mask. */
  method PlaceSessions(gene: Gene, c: Candidate, index: ConflictIndex, lookup: SlotLookup, ghost g0: GeneData)
    returns (newSessions: seq<Session>, ghost flags: seq<bool>)
    requires LookupOk(lookup) && CandidateOk(c) && GeneOk(c, lookup, g0) && g0 == gene.Data() && NoDup(gene.sessions)
    modifies Elements(gene.sessions)
    ensures NoDup(newSessions) && forall s :: s in newSessions ==> s in gene.sessions || fresh(s)
    ensures SessionsOk(c, lookup, SessionValues(newSessions)) && Repaired(SessionValues(newSessions), flags, index)
    ensures Earned(c, lookup, g0.kind, g0.sessions, SessionValues(newSessions), flags, index)
    ensures Stepped(c, lookup, g0.kind, g0.sessions, SessionValues(newSessions), flags, index)
  {
    hide CandidateOk, SessionsOk, Repaired, LookupOk, Earned, NoDup, Stepped;
    ghost var placed;
    newSessions, flags, placed := RepairSessions(gene.sessions, c, gene.kind, index, lookup, g0.sessions);
    if gene.kind == FIXED && |gene.sessions| > 0 {
      MaskChangesNothing(c, lookup, g0.sessions, placed);
      WriteMask(newSessions, gene.sessions[0].roomId);
    }
  }

  lemma OnlyFlexible(kind: Kind, c: Candidate, ss: seq<SessionData>, roomById: map<int, int>)
    requires NeedsSeats(kind, c, ss, roomById)
    ensures kind == FLEXIBLE
  {
  }

  // ---------------------------------------------------------------- the whole chromosome

  lemma SettledExtends(before: seq<SessionData>, after: seq<SessionData>, flags: seq<bool>, ss: seq<SessionData>,
                       more: seq<bool>)
    requires |flags| == |before| && UnflaggedApart(before, flags) && Settled(before + after, ss, more)
    ensures UnflaggedApart(before + ss, flags + more)
  {
    hide Apart;
    var all, fl := before + ss, flags + more;
    forall p, q | 0 <= p < q < |all| && !fl[p] && !fl[q] ensures Apart(all[p], all[q]) {
      if q < |before| {
        assert Apart(before[p], before[q]);
      } else if p < |before| {
        assert (before + after)[p] == before[p];
        assert Apart((before + after)[p], ss[q - |before|]);
      } else {
        assert Apart(ss[p - |before|], ss[q - |before|]);
      }
    }
  }

  lemma {:induction false} AllSessionsProper(cs: seq<Candidate>, lookup: SlotLookup, vals: seq<GeneData>, n: nat)
    requires CandidatesOk(cs) && ChromosomeOk(cs, lookup, vals) && n <= |vals|
    ensures AllProper(AllSessions(vals[..n], CandidateMap(cs)))
  {
    hide CandidateOk, SessionOk, Proper, AllSessions, CandidateMap;
    if n > 0 {
      AllSessionsProper(cs, lookup, vals, n - 1);
      AllSessionsStep(vals, n - 1, CandidateMap(cs));
      assert GeneOk(cs[n - 1], lookup, vals[n - 1]);
      var ss := vals[n - 1].sessions;
      forall k | 0 <= k < |ss| ensures Proper(ss[k]) {
        SessionIsProper(cs[n - 1], lookup, k, ss[k]);
      }
    } else {
      assert vals[..0] == [];
      NothingCounted(CandidateMap(cs));
    }
  }

  ghost predicate RepairedPrefix(vals: seq<GeneData>, n: nat, cs: seq<Candidate>, flags: seq<bool>)
    requires n <= |vals|
  {
    var ss := AllSessions(vals[..n], CandidateMap(cs));
    |flags| == |ss| && UnflaggedApart(ss, flags)
  }

  lemma PrefixGrows(cs: seq<Candidate>, lookup: SlotLookup, vals: seq<GeneData>, vals': seq<GeneData>, i: nat,
                    flags: seq<bool>, more: seq<bool>)
    requires CandidatesOk(cs) && ChromosomeOk(cs, lookup, vals) && i < |vals|
    requires RepairedPrefix(vals, i, cs, flags)
    requires |vals'| == |vals| && vals' == vals[i := vals'[i]] && GeneOk(cs[i], lookup, vals'[i])
    requires Settled(AllSessions(vals[..i], CandidateMap(cs)) + AllSessions(vals[i + 1..], CandidateMap(cs)),
      vals'[i].sessions, more)
    ensures ChromosomeOk(cs, lookup, vals') && RepairedPrefix(vals', i + 1, cs, flags + more)
  {
    hide CandidateOk, SessionsOk, AllSessions, CandidateMap, UnflaggedApart, Settled, DistinctOfferings;
    assert vals'[..i] == vals[..i];
    assert ChromosomeOk(cs, lookup, vals');
    OthersOfLocus(cs, lookup, vals', i);
    SettledExtends(AllSessions(vals[..i], CandidateMap(cs)), AllSessions(vals[i + 1..], CandidateMap(cs)), flags,
                   vals'[i].sessions, more);
    SettledSize(AllSessions(vals[..i], CandidateMap(cs)) + AllSessions(vals[i + 1..], CandidateMap(cs)),
      vals'[i].sessions, more);
  }

  lemma SettledSize(others: seq<SessionData>, ss: seq<SessionData>, flags: seq<bool>)
    requires Settled(others, ss, flags)
    ensures |flags| == |ss|
  {
  }

  function Flat(flags: seq<seq<bool>>): seq<bool> {
    if flags == [] then [] else Flat(flags[..|flags| - 1]) + flags[|flags| - 1]
  }

  lemma FlatSnoc(flags: seq<seq<bool>>, more: seq<bool>)
    ensures Flat(flags + [more]) == Flat(flags) + more
  {
    assert (flags + [more])[..|flags|] == flags;
  }

  ghost predicate LocusEarned(c: Candidate, lookup: SlotLookup, roomById: Option<map<int, int>>, g: GeneData,
                              ss: seq<SessionData>, flags: seq<bool>, others: seq<SessionData>) {
    GeneEarned(c, lookup, roomById, g, ss, flags, others) && Settled(others, ss, flags)
  }

  /** Each gene was repaired, and met nobody, against the repaired genes before it and the input genes behind it. */
  ghost predicate AllEarned(cs: seq<Candidate>, lookup: SlotLookup, roomById: Option<map<int, int>>,
                            input: seq<GeneData>, vals: seq<GeneData>, flags: seq<seq<bool>>) {
    |flags| <= |vals| == |input| == |cs| && forall j :: 0 <= j < |flags| ==>
      LocusEarned(cs[j], lookup, roomById, input[j], vals[j].sessions, flags[j],
                  AllSessions(vals[..j], CandidateMap(cs)) + AllSessions(input[j + 1..], CandidateMap(cs)))
  }

  lemma AllEarnedGrows(cs: seq<Candidate>, lookup: SlotLookup, roomById: Option<map<int, int>>, input: seq<GeneData>,
                       vals: seq<GeneData>, vals': seq<GeneData>, flags: seq<seq<bool>>, more: seq<bool>)
    requires AllEarned(cs, lookup, roomById, input, vals, flags) && |flags| < |vals| == |vals'|
    requires vals' == vals[|flags| := vals'[|flags|]]
    requires LocusEarned(cs[|flags|], lookup, roomById, input[|flags|], vals'[|flags|].sessions, more,
                         AllSessions(vals[..|flags|], CandidateMap(cs)) +
                         AllSessions(input[|flags| + 1..], CandidateMap(cs)))
    ensures AllEarned(cs, lookup, roomById, input, vals', flags + [more])
  {
    hide LocusEarned, AllSessions, CandidateMap;
    var all := flags + [more];
    forall j | 0 <= j < |all|
      ensures LocusEarned(cs[j], lookup, roomById, input[j], vals'[j].sessions, all[j],
                          AllSessions(vals'[..j], CandidateMap(cs)) + AllSessions(input[j + 1..], CandidateMap(cs))) {
      assert vals'[..j] == vals[..j];
    }
  }

  /** A repaired copy of a legal chromosome: new objects, legal values, and every remaining violation is a booking
      of a session that ended in the last resort, for which at its turn every allowed room and full block was
      exhausted. Without a last resort the violation count is zero. */
  method RepairChromosome(chromosome: Chromosome, cs: seq<Candidate>, lookup: SlotLookup,
                          roomById: Option<map<int, int>>)
    returns (repaired: Chromosome, ghost flags: seq<seq<bool>>)
    requires LookupOk(lookup) && CandidatesOk(cs) && ChromosomeOk(cs, lookup, Value(chromosome))
    ensures fresh(repaired) && fresh(Objects(repaired)) && Separate(repaired)
    ensures ChromosomeOk(cs, lookup, Value(repaired))
    ensures |flags| == |cs| && AllEarned(cs, lookup, roomById, old(Value(chromosome)), Value(repaired), flags)
    ensures var ss, fl := AllSessions(Value(repaired), CandidateMap(cs)), Flat(flags);
      |fl| == |ss| && UnflaggedApart(ss, fl) && 0 <= HardCount(ss) <= FlaggedBookings(ss, fl)
      && ((forall p :: 0 <= p < |fl| ==> !fl[p]) ==> HardCount(ss) == 0)
  {
    hide *;
    ghost var input := Value(chromosome);
    LociCount(cs, lookup, input);
    repaired := CloneChromosome(chromosome);
    ghost var vals := Value(repaired);
    flags := [];
    NothingRepairedYet(cs, lookup, roomById, input);
    for i := 0 to |repaired|
      invariant vals == Value(repaired) && ChromosomeOk(cs, lookup, vals) && |flags| == i && |input| == |repaired|
      invariant fresh(repaired) && fresh(Objects(repaired)) && Separate(repaired)
      invariant RepairedPrefix(vals, i, cs, Flat(flags))
      invariant vals[i..] == input[i..] && AllEarned(cs, lookup, roomById, input, vals, flags)
    {
      ghost var before, after := AllSessions(vals[..i], CandidateMap(cs)), AllSessions(vals[i + 1..], CandidateMap(cs));
      OthersOfLocus(cs, lookup, vals, i);
      OfferingAt(cs, lookup, vals, i);
      OwnObjects(repaired, i);
      ghost var more, g := RepairLocus(repaired, i, cs, lookup, roomById, before, after, vals);
      LocusRepaired(cs, lookup, roomById, input, vals, i, flags, more, g);
      vals, flags := vals[i := g], flags + [more];
    }
    RepairSummary(cs, lookup, vals, Flat(flags));
  }

  lemma OwnObjects(c: Chromosome, i: nat)
    requires i < |c|
    ensures forall s :: s in Elements(c[i].sessions) ==> s in Objects(c)
  {
  }

  /** The value-level step: locus i repaired, everything behind it still as given. */
  lemma LocusRepaired(cs: seq<Candidate>, lookup: SlotLookup, roomById: Option<map<int, int>>,
                      input: seq<GeneData>, vals: seq<GeneData>, i: nat,
                      flags: seq<seq<bool>>, more: seq<bool>, g: GeneData)
    requires CandidatesOk(cs) && ChromosomeOk(cs, lookup, vals) && i < |vals| == |input| && |flags| == i
    requires RepairedPrefix(vals, i, cs, Flat(flags)) && vals[i..] == input[i..] &&
      AllEarned(cs, lookup, roomById, input, vals, flags)
    requires GeneOk(cs[i], lookup, g)
    requires var others := AllSessions(vals[..i], CandidateMap(cs)) + AllSessions(vals[i + 1..], CandidateMap(cs));
      Settled(others, g.sessions, more) && GeneEarned(cs[i], lookup, roomById, vals[i], g.sessions, more, others)
    ensures var vals' := vals[i := g];
      ChromosomeOk(cs, lookup, vals') && RepairedPrefix(vals', i + 1, cs, Flat(flags + [more])) &&
        vals'[i + 1..] == input[i + 1..]
      && AllEarned(cs, lookup, roomById, input, vals', flags + [more])
  {
    hide GeneOk, CandidatesOk, ChromosomeOk, AllSessions, CandidateMap, Settled, GeneEarned, Flat,
         RepairedPrefix, AllEarned;
    var vals' := vals[i := g];
    assert vals[i + 1..] == vals[i..][1..] && input[i + 1..] == input[i..][1..];
    assert vals[i] == vals[i..][0] && input[i] == input[i..][0];
    assert vals'[i + 1..] == vals[i + 1..];
    PrefixGrows(cs, lookup, vals, vals', i, Flat(flags), more);
    AllEarnedGrows(cs, lookup, roomById, input, vals, vals', flags, more);
    FlatSnoc(flags, more);
  }

  lemma OfferingAt(cs: seq<Candidate>, lookup: SlotLookup, vals: seq<GeneData>, i: nat)
    requires CandidatesOk(cs) && ChromosomeOk(cs, lookup, vals) && i < |vals|
    ensures vals[i].offeringId == cs[i].offeringId
  {
    assert GeneOk(cs[i], lookup, vals[i]);
  }

  lemma NothingRepairedYet(cs: seq<Candidate>, lookup: SlotLookup, roomById: Option<map<int, int>>, vals: seq<GeneData>)
    requires CandidatesOk(cs) && ChromosomeOk(cs, lookup, vals)
    ensures RepairedPrefix(vals, 0, cs, Flat([])) && AllEarned(cs, lookup, roomById, vals, vals, [])
  {
    hide GeneOk;
    assert vals[..0] == [];
    NothingCounted(CandidateMap(cs));
  }

  lemma RepairSummary(cs: seq<Candidate>, lookup: SlotLookup, vals: seq<GeneData>, flags: seq<bool>)
    requires CandidatesOk(cs) && ChromosomeOk(cs, lookup, vals) && RepairedPrefix(vals, |vals|, cs, flags)
    ensures var ss := AllSessions(vals, CandidateMap(cs));
      |flags| == |ss| && UnflaggedApart(ss, flags) && 0 <= HardCount(ss) <= FlaggedBookings(ss, flags)
      && ((forall p :: 0 <= p < |flags| ==> !flags[p]) ==> HardCount(ss) == 0)
  {
    hide CandidatesOk, ChromosomeOk, HardCount, FlaggedBookings, AllSessions, CandidateMap;
    var ss := AllSessions(vals, CandidateMap(cs));
    assert vals[..|vals|] == vals;
    AllSessionsProper(cs, lookup, vals, |vals|);
    ViolationsAreFlagged(ss, flags);
    HardCountZero(ss);
    if forall p :: 0 <= p < |flags| ==> !flags[p] { NothingFlagged(ss, flags); }
  }
}
