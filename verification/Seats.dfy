/** What the capacity pass of the repair achieves, said of the timetable alone: seats, rooms and who holds them. */
module Seats {
  import opened Prelude
  import opened Candidates
  import opened Timetable
  import opened Genes
  import opened Fitness
  import opened Penalties
  import opened RepairSession
  import opened Repair

  /** Nobody else, neither another offering nor a sibling, holds the room at a slot of session k. */
  ghost predicate NobodyElseIn(room: int, ss: seq<SessionData>, k: nat, others: seq<SessionData>)
    requires k < |ss|
  {
    forall slot :: slot in ss[k].timeSlotIds ==>
      && (forall p :: 0 <= p < |others| && others[p].roomId == room ==> slot !in others[p].timeSlotIds)
      && (forall j :: 0 <= j < |ss| && j != k && ss[j].roomId == room ==> slot !in ss[j].timeSlotIds)
  }

  /** Some session could move to a larger room of the pool that nobody else holds at its slots. */
  ghost predicate LargerRoomIsFree(ss: seq<SessionData>, pool: seq<int>, roomById: map<int, int>,
                                   others: seq<SessionData>) {
    exists k, room :: 0 <= k < |ss| && room in pool &&
      CapacityOf(roomById, room) > CapacityOf(roomById, ss[k].roomId) && NobodyElseIn(room, ss, k, others)
  }

  lemma FreeRoomMeans(room: int, ss: seq<SessionData>, k: nat, index: ConflictIndex, others: seq<SessionData>)
    requires IndexOf(index, others) && k < |ss|
    ensures RoomFree(room, ss, k, index) <==> NobodyElseIn(room, ss, k, others)
  {
    hide AllRoomKeys, AllLecKeys;
    forall slot
      ensures (room, slot) in index.roomTimeUsed <==>
        exists p :: 0 <= p < |others| && others[p].roomId == room && slot in others[p].timeSlotIds {
      KeyOwner(others, (room, slot));
      assert (room, slot) in index.roomTimeUsed <==> (room, slot) in AllRoomKeys(others);
    }
  }

  lemma UpgradeMeans(ss: seq<SessionData>, pool: seq<int>, index: ConflictIndex, roomById: map<int, int>,
                     others: seq<SessionData>)
    requires IndexOf(index, others)
    ensures (exists k, room :: Upgrade(ss, k, room, pool, index, roomById)) <==>
      LargerRoomIsFree(ss, pool, roomById, others)
  {
    hide RoomFree, NobodyElseIn, IndexOf, CapacityOf;
    forall k, room | 0 <= k < |ss|
      ensures RoomFree(room, ss, k, index) <==> NobodyElseIn(room, ss, k, others) {
      FreeRoomMeans(room, ss, k, index, others);
    }
    if k, room :| Upgrade(ss, k, room, pool, index, roomById) {
      assert NobodyElseIn(room, ss, k, others);
    }
    if LargerRoomIsFree(ss, pool, roomById, others) {
      var k, room :| 0 <= k < |ss| && room in pool && CapacityOf(roomById, room) > CapacityOf(roomById, ss[k].roomId) &&
        NobodyElseIn(room, ss, k, others);
      assert Upgrade(ss, k, room, pool, index, roomById);
    }
  }

  /** At most n rounds gain a seat each, until there are enough or no session can move. */
  lemma {:induction false} PassGains(c: Candidate, ss: seq<SessionData>, t: seq<SessionData>, index: ConflictIndex,
                                     roomById: map<int, int>, n: nat)
    requires MayPass(c, ss, t, index, roomById, n)
    ensures CombinedCapacity(t, roomById) >= CombinedCapacity(ss, roomById)
    ensures n > 0 && !PassStops(c, ss, index, roomById) ==>
      CombinedCapacity(t, roomById) > CombinedCapacity(ss, roomById)
    ensures PassStops(c, t, index, roomById) ||
      CombinedCapacity(t, roomById) >= CombinedCapacity(ss, roomById) + n
    decreases n
  {
    hide PassStops, CombinedCapacity, Upgrade, Move;
    if n > 0 && !PassStops(c, ss, index, roomById) {
      var idx, room :| BestUpgrade(ss, idx, room, c.possibleRoomIds, index, roomById) && 0 <= idx < |ss| &&
        MayPass(c, Move(ss, idx, room), t, index, roomById, n - 1);
      MoveGains(ss, idx, room, c.possibleRoomIds, index, roomById);
      PassGains(c, Move(ss, idx, room), t, index, roomById, n - 1);
    }
  }

  lemma MoveGains(ss: seq<SessionData>, idx: nat, room: int, pool: seq<int>, index: ConflictIndex,
                  roomById: map<int, int>)
    requires Upgrade(ss, idx, room, pool, index, roomById) && idx < |ss|
    ensures CombinedCapacity(Move(ss, idx, room), roomById) > CombinedCapacity(ss, roomById)
  {
    CapacityOfMove(ss, idx, room, roomById);
  }

  /** Which genes the pass may touch: flexible ones of a candidate without a room but with a pool, in two or more
      sessions that are short of seats. */
  ghost predicate ShortOfSeats(c: Candidate, kind: Kind, ss: seq<SessionData>, roomById: map<int, int>) {
    kind == FLEXIBLE && c.roomId.None? && c.possibleRoomIds != [] && |ss| >= 2 &&
    CombinedCapacity(ss, roomById) < c.effectiveStudentCount
  }

  /** What repairing one gene makes of its seats, compared with the sessions that the placement left: a gene that was
      short of them ends with enough, or with no session that could still move to a larger free room, or with a seat
      more for each of its sessions; if any larger free room existed, it gained. Every other gene keeps its rooms. */
  lemma RepairSeats(c: Candidate, lookup: SlotLookup, roomById: Option<map<int, int>>, g: GeneData,
                    ss: seq<SessionData>, flags: seq<bool>, others: seq<SessionData>)
    returns (index: ConflictIndex, mid: seq<SessionData>)
    requires GeneEarned(c, lookup, roomById, g, ss, flags, others)
    ensures IndexOf(index, others) && Stepped(c, lookup, g.kind, g.sessions, mid, flags, index)
    ensures RoomsMoved(mid, ss, c.possibleRoomIds)
    ensures !(roomById.Some? && ShortOfSeats(c, g.kind, mid, roomById.value)) ==> ss == mid
    ensures roomById.Some? && ShortOfSeats(c, g.kind, mid, roomById.value) ==>
      var before, seats := CombinedCapacity(mid, roomById.value), CombinedCapacity(ss, roomById.value);
      && seats >= before
      && (LargerRoomIsFree(mid, c.possibleRoomIds, roomById.value, others) ==> seats > before)
      && (|| seats >= c.effectiveStudentCount
          || !LargerRoomIsFree(ss, c.possibleRoomIds, roomById.value, others)
          || seats >= before + |mid|)
  {
    hide Stepped, IndexOf, RoomsMoved, Earned, MayPass, CombinedCapacity, LargerRoomIsFree, Upgrade;
    index, mid :| IndexOf(index, others) && Stepped(c, lookup, g.kind, g.sessions, mid, flags, index) &&
      Earned(c, lookup, g.kind, g.sessions, ss, flags, index) && RoomsMoved(mid, ss, c.possibleRoomIds) &&
      Seated(c, g.kind, mid, ss, index, roomById);
    if roomById.Some? && NeedsSeats(g.kind, c, mid, roomById.value) {
      PassGains(c, mid, ss, index, roomById.value, |mid|);
      UpgradeMeans(mid, c.possibleRoomIds, index, roomById.value, others);
      UpgradeMeans(ss, c.possibleRoomIds, index, roomById.value, others);
    }
  }
}
