/** What the repair of one session may return, read off its search: which results are clean, and when it gives up. */
module Outcomes {
  import opened Prelude
  import opened Candidates
  import opened Timetable
  import opened SameDay
  import opened Genes
  import opened RepairSession

  // ---------------------------------------------------------------- swaps

  /** A swap is another same-size choice out of the pool that is free. */
  lemma SwapSuits(block: seq<int>, c: Candidate, current: seq<int>, index: ConflictIndex, ls: seq<int>)
    requires NoDup(c.lecturerPool) && MaySwap(block, c, current, index, Some(ls))
    ensures PoolChoice(c, ls, SwapSize(c, current)) && Suits(block, ls, current, index)
  {
    hide Choice, PoolChoice, Suits, Reordered, NoDup;
    var size := SwapSize(c, current);
    var order :| Reordered(order, c.lecturerPool) && FirstFit(order, size, block, current, index, Some(ls));
    var start :| FirstFitAt(order, size, block, current, index, ls, start);
    ChoiceIsPool(c, order, start, size);
  }

  /** For one lecturer, no swap is found along any order exactly when nobody else in the pool is free. */
  lemma NoSwapForOne(block: seq<int>, c: Candidate, l: int, index: ConflictIndex)
    requires NoDup(c.lecturerPool) && c.lecturerPool != []
    ensures MaySwap(block, c, [l], index, None) <==>
      forall l' :: l' in c.lecturerPool && l' != l ==> LecturerConflicts(block, [l'], index)
  {
    hide LecturerConflicts, Choice;
    var pool := c.lecturerPool;
    assert SwapSize(c, [l]) == 1;
    if MaySwap(block, c, [l], index, None) {
      var order :| Reordered(order, pool) && FirstFit(order, 1, block, [l], index, None);
      SameMultiset(order, pool);
      forall l' | l' in pool && l' != l ensures LecturerConflicts(block, [l'], index) {
        assert l' in Elements(order);
        var q :| 0 <= q < |order| && order[q] == l';
        SingleChoice(order, q);
        OtherLecturer(l', l);
      }
    }
    if forall l' :: l' in pool && l' != l ==> LecturerConflicts(block, [l'], index) {
      forall q | 0 <= q < |pool| ensures !Suits(block, Choice(pool, q, 1), [l], index) {
        SingleChoice(pool, q);
        assert pool[q] in pool;
      }
      assert FirstFit(pool, 1, block, [l], index, None);
      assert Reordered(pool, pool);
    }
  }

  lemma OtherLecturer(a: int, b: int)
    ensures multiset([a]) == multiset([b]) <==> a == b
  {
    assert a in multiset([a]) && b in multiset([b]);
  }

  /** For one lecturer, exactly the other free lecturers of the pool may be swapped in. */
  lemma SwapForOne(block: seq<int>, c: Candidate, l: int, index: ConflictIndex, ls: seq<int>)
    requires NoDup(c.lecturerPool) && c.lecturerPool != []
    ensures MaySwap(block, c, [l], index, Some(ls)) <==>
      |ls| == 1 && ls[0] in c.lecturerPool && ls[0] != l && !LecturerConflicts(block, ls, index)
  {
    hide LecturerConflicts, Choice, Reordered, NoDup, Window;
    var pool := c.lecturerPool;
    assert SwapSize(c, [l]) == 1;
    if MaySwap(block, c, [l], index, Some(ls)) {
      SwapSuits(block, c, [l], index, ls);
      assert ls == [ls[0]];
      OtherLecturer(ls[0], l);
    }
    if |ls| == 1 && ls[0] in pool && ls[0] != l && !LecturerConflicts(block, ls, index) {
      var order := MovedFirst(pool, ls[0]);
      SingleChoice(order, 0);
      OtherLecturer(ls[0], l);
      assert ls == [ls[0]];
      assert FirstFitAt(order, 1, block, [l], index, ls, 0);
      assert FirstFit(order, 1, block, [l], index, Some(ls));
    }
  }

  /** An order of the list that starts with x. */
  lemma MovedFirst<T>(s: seq<T>, x: T) returns (order: seq<T>)
    requires x in s
    ensures Reordered(order, s) && multiset(order) == multiset(s) && order != [] && order[0] == x
  {
    var i :| 0 <= i < |s| && s[i] == x;
    order := [x] + (s[..i] + s[i + 1..]);
    assert s == s[..i] + [x] + s[i + 1..];
  }

  // ---------------------------------------------------------------- the search in one room

  /** The block does not work in the room: one round of the search goes on. */
  ghost predicate Fails(block: seq<int>, room: int, session: SessionData, c: Candidate, index: ConflictIndex,
                        used: set<int>) {
    RoomOrGeneSlotConflicts(block, room, index, used) ||
    (LecturerConflicts(block, session.lecturerIds, index) && MaySwap(block, c, session.lecturerIds, index, None))
  }

  lemma FailsIffNoWay(block: seq<int>, room: int, session: SessionData, c: Candidate, index: ConflictIndex,
                      used: set<int>)
    requires NoDup(c.lecturerPool)
    ensures Fails(block, room, session, c, index, used) <==> NoWay(block, room, session.lecturerIds, c, index, used)
  {
    hide RoomOrGeneSlotConflicts, LecturerConflicts, MaySwap;
    if |session.lecturerIds| == 1 && LecturerConflicts(block, session.lecturerIds, index) && c.lecturerPool != [] {
      var l := session.lecturerIds[0];
      assert session.lecturerIds == [l];
      NoSwapForOne(block, c, l, index);
    }
  }

  lemma {:induction false} TryFinds(blocks: seq<seq<int>>, room: int, session: SessionData, c: Candidate,
                                    index: ConflictIndex, used: set<int>, t: SessionData)
    requires NoDup(c.lecturerPool) && MayTry(blocks, room, session, c, index, used, Some(t))
    ensures t.roomId == room && Found(t, blocks, session, c, index, used)
  {
    hide RoomOrGeneSlotConflicts, LecturerConflicts, MaySwap, PoolChoice, NoDup;
    var b := blocks[0];
    assert b in blocks && forall x :: x in blocks[1..] ==> x in blocks;
    if RoomOrGeneSlotConflicts(b, room, index, used) {
      TryFinds(blocks[1..], room, session, c, index, used, t);
    } else if LecturerConflicts(b, session.lecturerIds, index) {
      var swap :| MaySwap(b, c, session.lecturerIds, index, swap) &&
        if swap.Some? then Some(t) == Some(SessionData(room, b, swap.value))
        else MayTry(blocks[1..], room, session, c, index, used, Some(t));
      if swap.Some? {
        SwapSuits(b, c, session.lecturerIds, index, swap.value);
      } else {
        TryFinds(blocks[1..], room, session, c, index, used, t);
      }
    }
  }

  lemma {:induction false} TryFailsIff(blocks: seq<seq<int>>, room: int, session: SessionData, c: Candidate,
                                       index: ConflictIndex, used: set<int>)
    ensures MayTry(blocks, room, session, c, index, used, None) <==>
      forall i :: 0 <= i < |blocks| ==> Fails(blocks[i], room, session, c, index, used)
  {
    hide RoomOrGeneSlotConflicts, LecturerConflicts, MaySwap;
    if blocks != [] {
      var rest := blocks[1..];
      TryFailsIff(rest, room, session, c, index, used);
      assert MayTry(blocks, room, session, c, index, used, None) <==>
        Fails(blocks[0], room, session, c, index, used) && MayTry(rest, room, session, c, index, used, None);
      if forall i :: 0 <= i < |rest| ==> Fails(rest[i], room, session, c, index, used) {
        forall i | 1 <= i < |blocks| ensures Fails(blocks[i], room, session, c, index, used) {
          assert rest[i - 1] == blocks[i];
        }
      }
    }
  }

  /** No result in this room exactly when every block is hopeless there. */
  lemma TryNoneIff(blocks: seq<seq<int>>, room: int, session: SessionData, c: Candidate, index: ConflictIndex,
                   used: set<int>)
    requires NoDup(c.lecturerPool)
    ensures MayTry(blocks, room, session, c, index, used, None) <==>
      forall b :: b in blocks ==> NoWay(b, room, session.lecturerIds, c, index, used)
  {
    TryFailsIff(blocks, room, session, c, index, used);
    hide MayTry, NoWay, Fails;
    forall i | 0 <= i < |blocks|
      ensures Fails(blocks[i], room, session, c, index, used)
         <==> NoWay(blocks[i], room, session.lecturerIds, c, index, used) {
      FailsIffNoWay(blocks[i], room, session, c, index, used);
    }
    if MayTry(blocks, room, session, c, index, used, None) {
      forall b | b in blocks ensures NoWay(b, room, session.lecturerIds, c, index, used) {
        var i :| 0 <= i < |blocks| && blocks[i] == b;
      }
    }
    if forall b :: b in blocks ==> NoWay(b, room, session.lecturerIds, c, index, used) {
      forall i | 0 <= i < |blocks| ensures Fails(blocks[i], room, session, c, index, used) {
        assert blocks[i] in blocks;
      }
    }
  }

  // ---------------------------------------------------------------- the search through the rooms

  lemma {:induction false} RoomsFind(blocks: seq<seq<int>>, rooms: seq<int>, session: SessionData, c: Candidate,
                                     index: ConflictIndex, used: set<int>, t: SessionData)
    requires NoDup(c.lecturerPool) && MayTryRooms(blocks, rooms, session, c, index, used, Some(t))
    ensures t.roomId in rooms && Found(t, blocks, session, c, index, used)
  {
    hide MayTry, Found, NoDup;
    assert rooms[0] in rooms && forall x :: x in rooms[1..] ==> x in rooms;
    if rooms[0] == session.roomId {
      RoomsFind(blocks, rooms[1..], session, c, index, used, t);
    } else {
      var q :| MayTry(blocks, rooms[0], session, c, index, used, q) &&
        if q.Some? then Some(t) == q else MayTryRooms(blocks, rooms[1..], session, c, index, used, Some(t));
      if q.Some? {
        TryFinds(blocks, rooms[0], session, c, index, used, t);
      } else {
        RoomsFind(blocks, rooms[1..], session, c, index, used, t);
      }
    }
  }

  ghost predicate NoRoom(blocks: seq<seq<int>>, room: int, session: SessionData, c: Candidate, index: ConflictIndex,
                         used: set<int>) {
    forall b :: b in blocks ==> NoWay(b, room, session.lecturerIds, c, index, used)
  }

  lemma {:induction false} RoomsFailIff(blocks: seq<seq<int>>, rooms: seq<int>, session: SessionData, c: Candidate,
                                        index: ConflictIndex, used: set<int>)
    requires NoDup(c.lecturerPool)
    ensures MayTryRooms(blocks, rooms, session, c, index, used, None) <==>
      forall i :: 0 <= i < |rooms| && rooms[i] != session.roomId ==> NoRoom(blocks, rooms[i], session, c, index, used)
  {
    if rooms != [] {
      var rest := rooms[1..];
      RoomsFailIff(blocks, rest, session, c, index, used);
      TryNoneIff(blocks, rooms[0], session, c, index, used);
      assert MayTry(blocks, rooms[0], session, c, index, used, None) <==>
        NoRoom(blocks, rooms[0], session, c, index, used);
      hide MayTry, NoRoom, NoDup;
      RoomsStep(blocks, rooms, session, c, index, used);
      if forall i :: 0 <= i < |rest| && rest[i] != session.roomId ==> NoRoom(blocks, rest[i], session, c, index, used) {
        forall i | 1 <= i < |rooms| && rooms[i] != session.roomId
          ensures NoRoom(blocks, rooms[i], session, c, index, used) {
          assert rest[i - 1] == rooms[i];
        }
      }
    }
  }

  lemma RoomsStep(blocks: seq<seq<int>>, rooms: seq<int>, session: SessionData, c: Candidate, index: ConflictIndex,
                  used: set<int>)
    requires rooms != []
    ensures MayTryRooms(blocks, rooms, session, c, index, used, None) <==>
      (rooms[0] == session.roomId || MayTry(blocks, rooms[0], session, c, index, used, None)) &&
      MayTryRooms(blocks, rooms[1..], session, c, index, used, None)
  {
    hide MayTry;
    if MayTryRooms(blocks, rooms, session, c, index, used, None) && rooms[0] != session.roomId {
      var q :| MayTry(blocks, rooms[0], session, c, index, used, q) &&
        if q.Some? then None == q else MayTryRooms(blocks, rooms[1..], session, c, index, used, None);
      assert q == None;
    }
  }

  lemma SearchFinds(blocks: seq<seq<int>>, session: SessionData, c: Candidate, kind: Kind, index: ConflictIndex,
                    used: set<int>, t: SessionData)
    requires NoDup(c.lecturerPool) && MaySearch(blocks, session, c, kind, index, used, Some(t))
    ensures AllowedRoom(c, kind, session.roomId, t.roomId) && Found(t, blocks, session, c, index, used)
  {
    hide MayTry, MayTryRooms, Found, NoDup, Reordered;
    var q :| MayTry(blocks, session.roomId, session, c, index, used, q) &&
      if q.Some? then Some(t) == q
      else if kind == FIXED then false
      else MaySearchRooms(blocks, session, c, index, used, Some(t));
    if q.Some? {
      TryFinds(blocks, session.roomId, session, c, index, used, t);
    } else {
      var rooms :| Reordered(rooms, c.possibleRoomIds) &&
        MayTryRooms(blocks, rooms, session, c, index, used, Some(t));
      RoomsFind(blocks, rooms, session, c, index, used, t);
      ReorderedRoom(rooms, c.possibleRoomIds, t.roomId);
    }
  }

  lemma ReorderedRoom(rooms: seq<int>, pool: seq<int>, room: int)
    requires Reordered(rooms, pool)
    ensures room in rooms <==> room in pool
  {
    SameMultiset(rooms, pool);
    assert room in Elements(rooms) <==> room in Elements(pool);
  }

  /** The search gives up exactly when no allowed room takes any of the blocks. */
  lemma SearchNoneIff(blocks: seq<seq<int>>, session: SessionData, c: Candidate, kind: Kind, index: ConflictIndex,
                      used: set<int>)
    requires NoDup(c.lecturerPool)
    ensures MaySearch(blocks, session, c, kind, index, used, None) <==>
      forall room :: AllowedRoom(c, kind, session.roomId, room) ==> NoRoom(blocks, room, session, c, index, used)
  {
    TryNoneIff(blocks, session.roomId, session, c, index, used);
    assert MayTry(blocks, session.roomId, session, c, index, used, None) <==>
      NoRoom(blocks, session.roomId, session, c, index, used);
    hide MayTry, MayTryRooms, NoRoom, NoDup, Reordered;
    SearchNoneSplit(blocks, session, c, kind, index, used);
    if kind != FIXED { OtherRoomsNoneIff(blocks, session, c, index, used); }
  }

  lemma SearchNoneSplit(blocks: seq<seq<int>>, session: SessionData, c: Candidate, kind: Kind, index: ConflictIndex,
                        used: set<int>)
    ensures MaySearch(blocks, session, c, kind, index, used, None) <==>
      MayTry(blocks, session.roomId, session, c, index, used, None) &&
      (kind == FIXED || MaySearchRooms(blocks, session, c, index, used, None))
  {
    hide MayTry, MaySearchRooms;
    if MaySearch(blocks, session, c, kind, index, used, None) {
      var q :| MayTry(blocks, session.roomId, session, c, index, used, q) &&
        if q.Some? then None == q
        else if kind == FIXED then true
        else MaySearchRooms(blocks, session, c, index, used, None);
      assert q == None;
    }
  }

  lemma OtherRoomsNoneIff(blocks: seq<seq<int>>, session: SessionData, c: Candidate, index: ConflictIndex,
                          used: set<int>)
    requires NoDup(c.lecturerPool)
    ensures MaySearchRooms(blocks, session, c, index, used, None) <==>
      forall room :: room in c.possibleRoomIds && room != session.roomId ==>
        NoRoom(blocks, room, session, c, index, used)
  {
    hide MayTryRooms, NoRoom, NoDup, Reordered;
    if MaySearchRooms(blocks, session, c, index, used, None) {
      var rooms :| Reordered(rooms, c.possibleRoomIds) && MayTryRooms(blocks, rooms, session, c, index, used, None);
      RoomsFailIff(blocks, rooms, session, c, index, used);
      forall room | room in c.possibleRoomIds && room != session.roomId
        ensures NoRoom(blocks, room, session, c, index, used) {
        ReorderedRoom(rooms, c.possibleRoomIds, room);
        var i :| 0 <= i < |rooms| && rooms[i] == room;
      }
    }
    if forall room :: room in c.possibleRoomIds && room != session.roomId ==>
         NoRoom(blocks, room, session, c, index, used) {
      RoomsFailIff(blocks, c.possibleRoomIds, session, c, index, used);
      assert Reordered(c.possibleRoomIds, c.possibleRoomIds) by { AsListed(c.possibleRoomIds); }
    }
  }

  lemma AsListed<T>(s: seq<T>)
    ensures Reordered(s, s)
  {
  }

  // ---------------------------------------------------------------- the repair of a session with a full block

  ghost function FullBlocks(c: Candidate, lookup: SlotLookup): seq<seq<int>> {
    Blocks(c.possibleTimeSlotIds, c.sessionDuration, lookup)
  }

  /** A result is clean, or the search had to give up and the last resort took a full block. */
  lemma MoveMeans(c: Candidate, lookup: SlotLookup, kind: Kind, session: SessionData, index: ConflictIndex,
                  used: set<int>, t: SessionData, lastResort: bool)
    requires NoDup(c.lecturerPool) && FullBlocks(c, lookup) != []
    requires MayMove(c, lookup, kind, session, index, used, t, lastResort)
    ensures !lastResort ==> Clean(t, index, used)
    ensures lastResort ==> Hopeless(c, lookup, kind, session, index, used)
    ensures lastResort ==> exists b :: b in FullBlocks(c, lookup) && MayResort(b, session, c, index, t)
    ensures AllowedRoom(c, kind, session.roomId, t.roomId) && t.timeSlotIds in FullBlocks(c, lookup)
    ensures LecturerStep(c, session.lecturerIds, t.lecturerIds)
  {
    var blocks := FullBlocks(c, lookup);
    hide Blocks, MaySearch, MayResort, Clean, LecturerStep, NoDup, NoWay;
    var order :| Reordered(order, blocks) && order != [] &&
      MayMoveInto(order, session, c, kind, index, used, t, lastResort);
    BlocksReordered(blocks, order);
    hide Reordered;
    var placed :| MaySearch(order, session, c, kind, index, used, placed) &&
      if placed.Some? then t == placed.value && !lastResort
      else lastResort && MayResort(order[0], session, c, index, t);
    if placed.Some? {
      SearchFinds(order, session, c, kind, index, used, t);
    } else {
      SearchNoneIff(order, session, c, kind, index, used);
      ResortMeans(order[0], session, c, index, t);
      assert order[0] in order;
    }
  }

  lemma ResortMeans(block: seq<int>, session: SessionData, c: Candidate, index: ConflictIndex, t: SessionData)
    requires NoDup(c.lecturerPool) && MayResort(block, session, c, index, t)
    ensures t.roomId == session.roomId && t.timeSlotIds == block && LecturerStep(c, session.lecturerIds, t.lecturerIds)
  {
    hide MaySwap, PoolChoice, NoDup;
    var swap :| MaySwap(block, c, session.lecturerIds, index, swap) &&
      t == SessionData(session.roomId, block, if swap.Some? then swap.value else session.lecturerIds);
    if swap.Some? { SwapSuits(block, c, session.lecturerIds, index, swap.value); }
  }

  /** When the search has to give up, every full block may become the last resort. */
  lemma MoveMay(c: Candidate, lookup: SlotLookup, kind: Kind, session: SessionData, index: ConflictIndex,
                used: set<int>, t: SessionData, block: seq<int>)
    requires NoDup(c.lecturerPool) && Hopeless(c, lookup, kind, session, index, used)
    requires block in FullBlocks(c, lookup) && MayResort(block, session, c, index, t)
    ensures MayMove(c, lookup, kind, session, index, used, t, true)
  {
    hide Blocks, MaySearch, MayResort, NoDup, NoWay;
    var blocks := FullBlocks(c, lookup);
    var order := MovedFirst(blocks, block);
    BlocksReordered(blocks, order);
    hide Reordered;
    SearchNoneIff(order, session, c, kind, index, used);
    assert MaySearch(order, session, c, kind, index, used, None);
    assert MayMoveInto(order, session, c, kind, index, used, t, true);
  }

  /** What a repaired session can be, for a candidate with a full block. */
  lemma RepairMeans(c: Candidate, lookup: SlotLookup, kind: Kind, session: SessionData, index: ConflictIndex,
                    used: set<int>, t: SessionData, lastResort: bool)
    requires NoDup(c.lecturerPool) && FullBlocks(c, lookup) != []
    requires session.timeSlotIds in FullBlocks(c, lookup)
    requires MayRepair(c, lookup, kind, session, index, used, t, lastResort)
    ensures !lastResort ==> Clean(t, index, used)
    ensures lastResort ==> !KeepsSession(c, session, index, used) && Hopeless(c, lookup, kind, session, index, used)
    ensures lastResort ==> exists b :: b in FullBlocks(c, lookup) && MayResort(b, session, c, index, t)
    ensures AllowedRoom(c, kind, session.roomId, t.roomId) && t.timeSlotIds in FullBlocks(c, lookup)
    ensures LecturerStep(c, session.lecturerIds, t.lecturerIds)
  {
    hide Blocks, FullBlocks, MayMove, MaySwap, NoDup, RoomOrGeneSlotConflicts, LecturerConflicts, Hopeless, PoolChoice,
         MayResort;
    if !KeepsSession(c, session, index, used) {
      if OnlyLecturersClash(c, session, index, used) {
        var swap :| MaySwap(session.timeSlotIds, c, session.lecturerIds, index, swap) &&
          if swap.Some? then t == session.(lecturerIds := swap.value) && !lastResort
          else MayMove(c, lookup, kind, session, index, used, t, lastResort);
        if swap.Some? {
          SwapSuits(session.timeSlotIds, c, session.lecturerIds, index, swap.value);
        } else {
          MoveMeans(c, lookup, kind, session, index, used, t, lastResort);
        }
      } else {
        MoveMeans(c, lookup, kind, session, index, used, t, lastResort);
      }
    }
  }

  /** A session that is not kept and for which the search must give up may become any last resort. */
  lemma ResortIsOutcome(c: Candidate, lookup: SlotLookup, kind: Kind, session: SessionData, index: ConflictIndex,
                        used: set<int>, t: SessionData, block: seq<int>)
    requires NoDup(c.lecturerPool) && session.timeSlotIds in FullBlocks(c, lookup)
    requires !KeepsSession(c, session, index, used) && Hopeless(c, lookup, kind, session, index, used)
    requires block in FullBlocks(c, lookup) && MayResort(block, session, c, index, t)
    ensures MayRepair(c, lookup, kind, session, index, used, t, true)
  {
    MoveMay(c, lookup, kind, session, index, used, t, block);
    hide Blocks, MayMove, MaySwap, NoDup, RoomOrGeneSlotConflicts, LecturerConflicts, MayResort, EveryLecturerConflicts;
    if OnlyLecturersClash(c, session, index, used) {
      assert NoWay(session.timeSlotIds, session.roomId, session.lecturerIds, c, index, used);
      var swap: Option<seq<int>> := None;
      assert MaySwap(session.timeSlotIds, c, session.lecturerIds, index, swap);
    }
  }

  // ---------------------------------------------------------------- what a repair leaves alone

  /** If only lecturers clash and every order of the pool has a choice that suits, every result keeps the room and the
      slots and takes another free choice of the pool. */
  lemma SwapInPlace(c: Candidate, lookup: SlotLookup, kind: Kind, session: SessionData, index: ConflictIndex,
                    used: set<int>, t: SessionData, lastResort: bool)
    requires NoDup(c.lecturerPool) && MayRepair(c, lookup, kind, session, index, used, t, lastResort)
    requires |session.timeSlotIds| == c.sessionDuration
    requires !RoomOrGeneSlotConflicts(session.timeSlotIds, session.roomId, index, used)
    requires LecturerConflicts(session.timeSlotIds, session.lecturerIds, index)
    requires forall order :: Reordered(order, c.lecturerPool) ==>
      SomeChoiceSuits(order, SwapSize(c, session.lecturerIds), session.timeSlotIds, session.lecturerIds, index)
    ensures t.roomId == session.roomId && t.timeSlotIds == session.timeSlotIds && !lastResort
    ensures PoolChoice(c, t.lecturerIds, SwapSize(c, session.lecturerIds))
    ensures multiset(t.lecturerIds) != multiset(session.lecturerIds)
    ensures !LecturerConflicts(session.timeSlotIds, t.lecturerIds, index)
  {
    hide RoomOrGeneSlotConflicts, LecturerConflicts, PoolChoice, NoDup, Choice, Reordered, MayMove, SwapSize;
    var swap :| MaySwap(session.timeSlotIds, c, session.lecturerIds, index, swap) &&
      if swap.Some? then t == session.(lecturerIds := swap.value) && !lastResort
      else MayMove(c, lookup, kind, session, index, used, t, lastResort);
    if swap.Some? {
      SwapSuits(session.timeSlotIds, c, session.lecturerIds, index, swap.value);
    } else {
      SomeSwapSuits(session.timeSlotIds, c, session.lecturerIds, index);
    }
  }

  /** One of the choices along the order is another one and free. */
  ghost predicate SomeChoiceSuits(order: seq<int>, size: nat, block: seq<int>, current: seq<int>,
                                  index: ConflictIndex) {
    exists q :: 0 <= q < |order| && Suits(block, Choice(order, q, size), current, index)
  }

  lemma SomeSwapSuits(block: seq<int>, c: Candidate, current: seq<int>, index: ConflictIndex)
    requires forall order :: Reordered(order, c.lecturerPool) ==>
      SomeChoiceSuits(order, SwapSize(c, current), block, current, index)
    ensures !MaySwap(block, c, current, index, None)
  {
    hide Suits, Choice, Reordered, SwapSize;
  }

  /** With one lecturer: if the only clash is through that lecturer and another lecturer of the pool is free, every
      result keeps the room and the slots and takes a free lecturer of the pool. */
  lemma OneLecturerSwapInPlace(c: Candidate, lookup: SlotLookup, kind: Kind, session: SessionData,
                               index: ConflictIndex, used: set<int>, t: SessionData, lastResort: bool)
    requires NoDup(c.lecturerPool) && MayRepair(c, lookup, kind, session, index, used, t, lastResort)
    requires |session.timeSlotIds| == c.sessionDuration && |session.lecturerIds| == 1
    requires !RoomOrGeneSlotConflicts(session.timeSlotIds, session.roomId, index, used)
    requires LecturerConflicts(session.timeSlotIds, session.lecturerIds, index)
    requires exists l :: l in c.lecturerPool && !LecturerConflicts(session.timeSlotIds, [l], index)
    ensures t.roomId == session.roomId && t.timeSlotIds == session.timeSlotIds && !lastResort
    ensures |t.lecturerIds| == 1 && t.lecturerIds[0] in c.lecturerPool
    ensures !LecturerConflicts(session.timeSlotIds, t.lecturerIds, index)
  {
    var slots, l := session.timeSlotIds, session.lecturerIds[0];
    assert session.lecturerIds == [l];
    NoSwapForOne(slots, c, l, index);
    hide RoomOrGeneSlotConflicts, LecturerConflicts, NoDup, MaySwap, MayMove;
    var swap :| MaySwap(slots, c, session.lecturerIds, index, swap) &&
      if swap.Some? then t == session.(lecturerIds := swap.value) && !lastResort
      else MayMove(c, lookup, kind, session, index, used, t, lastResort);
    assert swap.Some?;
    SwapForOne(slots, c, l, index, swap.value);
  }

  /** The current room comes first: if it takes a block with every order of the pool, the result stays in it. */
  lemma CurrentRoomFirst(c: Candidate, lookup: SlotLookup, kind: Kind, session: SessionData, index: ConflictIndex,
                         used: set<int>, t: SessionData, lastResort: bool)
    requires NoDup(c.lecturerPool) && FullBlocks(c, lookup) != []
    requires MayRepair(c, lookup, kind, session, index, used, t, lastResort)
    requires exists b :: b in FullBlocks(c, lookup) && !NoWay(b, session.roomId, session.lecturerIds, c, index, used)
    ensures t.roomId == session.roomId && !lastResort
  {
    hide NoWay, MaySwap, NoDup, KeepsSession, OnlyLecturersClash, FullBlocks;
    if MayMove(c, lookup, kind, session, index, used, t, lastResort) {
      CurrentRoomMove(c, lookup, kind, session, index, used, t, lastResort);
    }
  }

  lemma CurrentRoomMove(c: Candidate, lookup: SlotLookup, kind: Kind, session: SessionData, index: ConflictIndex,
                        used: set<int>, t: SessionData, lastResort: bool)
    requires NoDup(c.lecturerPool) && FullBlocks(c, lookup) != []
    requires MayMove(c, lookup, kind, session, index, used, t, lastResort)
    requires exists b :: b in FullBlocks(c, lookup) && !NoWay(b, session.roomId, session.lecturerIds, c, index, used)
    ensures t.roomId == session.roomId && !lastResort
  {
    hide NoWay, MayTry, MayResort, MaySearchRooms, NoDup, Blocks;
    var blocks := FullBlocks(c, lookup);
    var order :| Reordered(order, blocks) && order != [] &&
      MayMoveInto(order, session, c, kind, index, used, t, lastResort);
    BlocksReordered(blocks, order);
    hide Reordered;
    var placed :| MaySearch(order, session, c, kind, index, used, placed) &&
      if placed.Some? then t == placed.value && !lastResort
      else lastResort && MayResort(order[0], session, c, index, t);
    var q :| MayTry(order, session.roomId, session, c, index, used, q) &&
      if q.Some? then placed == q
      else if kind == FIXED then placed.None?
      else MaySearchRooms(order, session, c, index, used, placed);
    TryNoneIff(order, session.roomId, session, c, index, used);
    assert q.Some?;
    TryFinds(order, session.roomId, session, c, index, used, q.value);
  }

  /** Lecturers who are free stay: outside the last resort they change only where they clash. */
  lemma FreeLecturersStay(c: Candidate, lookup: SlotLookup, kind: Kind, session: SessionData, index: ConflictIndex,
                          used: set<int>, t: SessionData)
    requires FullBlocks(c, lookup) != [] && MayRepair(c, lookup, kind, session, index, used, t, false)
    ensures t.lecturerIds != session.lecturerIds ==> LecturerConflicts(t.timeSlotIds, session.lecturerIds, index)
  {
    hide RoomOrGeneSlotConflicts, LecturerConflicts, MaySwap, FullBlocks;
    if MayMove(c, lookup, kind, session, index, used, t, false) {
      FreeStayInMove(c, lookup, kind, session, index, used, t);
    }
  }

  lemma FreeStayInMove(c: Candidate, lookup: SlotLookup, kind: Kind, session: SessionData, index: ConflictIndex,
                       used: set<int>, t: SessionData)
    requires FullBlocks(c, lookup) != [] && MayMove(c, lookup, kind, session, index, used, t, false)
    ensures t.lecturerIds != session.lecturerIds ==> LecturerConflicts(t.timeSlotIds, session.lecturerIds, index)
  {
    hide LecturerConflicts, MayTry, MayResort, MayTryRooms, Blocks, Reordered;
    var order :| Reordered(order, FullBlocks(c, lookup)) && order != [] &&
      MayMoveInto(order, session, c, kind, index, used, t, false);
    assert MaySearch(order, session, c, kind, index, used, Some(t));
    var q :| MayTry(order, session.roomId, session, c, index, used, q) &&
      if q.Some? then Some(t) == q
      else if kind == FIXED then false
      else MaySearchRooms(order, session, c, index, used, Some(t));
    if q.Some? {
      FreeStayInRoom(order, session.roomId, session, c, index, used, t);
    } else {
      var rooms :| Reordered(rooms, c.possibleRoomIds) &&
        MayTryRooms(order, rooms, session, c, index, used, Some(t));
      FreeStayInRooms(order, rooms, session, c, index, used, t);
    }
  }

  lemma {:induction false} FreeStayInRoom(blocks: seq<seq<int>>, room: int, session: SessionData, c: Candidate,
                                          index: ConflictIndex, used: set<int>, t: SessionData)
    requires MayTry(blocks, room, session, c, index, used, Some(t))
    ensures t.lecturerIds != session.lecturerIds ==> LecturerConflicts(t.timeSlotIds, session.lecturerIds, index)
  {
    hide RoomOrGeneSlotConflicts, LecturerConflicts, MaySwap;
    if MayTry(blocks[1..], room, session, c, index, used, Some(t)) {
      FreeStayInRoom(blocks[1..], room, session, c, index, used, t);
    }
  }

  lemma {:induction false} FreeStayInRooms(blocks: seq<seq<int>>, rooms: seq<int>, session: SessionData, c: Candidate,
                                           index: ConflictIndex, used: set<int>, t: SessionData)
    requires MayTryRooms(blocks, rooms, session, c, index, used, Some(t))
    ensures t.lecturerIds != session.lecturerIds ==> LecturerConflicts(t.timeSlotIds, session.lecturerIds, index)
  {
    hide MayTry, LecturerConflicts;
    if MayTryRooms(blocks, rooms[1..], session, c, index, used, Some(t)) {
      FreeStayInRooms(blocks, rooms[1..], session, c, index, used, t);
    } else {
      FreeStayInRoom(blocks, rooms[0], session, c, index, used, t);
    }
  }

  // ---------------------------------------------------------------- the last resort, and repair without a full block

  /** The last resort keeps the room and takes a full block, or the best pick of one day where there is none. Its
      lecturers are another free choice of the pool if every order of the pool has one, and stay if no order has. */
  lemma LastResortMeans(c: Candidate, lookup: SlotLookup, kind: Kind, session: SessionData, index: ConflictIndex,
                        used: set<int>, t: SessionData)
    requires NoDup(c.lecturerPool) && MayRepair(c, lookup, kind, session, index, used, t, true)
    ensures t.roomId == session.roomId
    ensures if FullBlocks(c, lookup) != [] then t.timeSlotIds in FullBlocks(c, lookup)
            else BestPick(t.timeSlotIds, c.possibleTimeSlotIds, c.sessionDuration, lookup)
    ensures t.lecturerIds == session.lecturerIds ||
      (PoolChoice(c, t.lecturerIds, SwapSize(c, session.lecturerIds)) &&
       Suits(t.timeSlotIds, t.lecturerIds, session.lecturerIds, index))
    ensures (forall order :: Reordered(order, c.lecturerPool) ==>
               SomeChoiceSuits(order, SwapSize(c, session.lecturerIds), t.timeSlotIds, session.lecturerIds, index)) ==>
      Suits(t.timeSlotIds, t.lecturerIds, session.lecturerIds, index)
    ensures (forall order :: Reordered(order, c.lecturerPool) ==>
               !SomeChoiceSuits(order, SwapSize(c, session.lecturerIds), t.timeSlotIds, session.lecturerIds, index)) ==>
      t.lecturerIds == session.lecturerIds
  {
    hide *;
    ResortTaken(c, lookup, kind, session, index, used, t);
    ResortLecturers(t.timeSlotIds, session, c, index, t);
  }

  lemma ResortTaken(c: Candidate, lookup: SlotLookup, kind: Kind, session: SessionData, index: ConflictIndex,
                    used: set<int>, t: SessionData)
    requires MayRepair(c, lookup, kind, session, index, used, t, true)
    ensures MayResort(t.timeSlotIds, session, c, index, t)
    ensures if FullBlocks(c, lookup) != [] then t.timeSlotIds in FullBlocks(c, lookup)
            else BestPick(t.timeSlotIds, c.possibleTimeSlotIds, c.sessionDuration, lookup)
  {
    hide RoomOrGeneSlotConflicts, LecturerConflicts, MaySwap, MaySearch, Blocks, BestPick;
    assert MayMove(c, lookup, kind, session, index, used, t, true);
    if FullBlocks(c, lookup) != [] {
      var order :| Reordered(order, FullBlocks(c, lookup)) && order != [] &&
        MayMoveInto(order, session, c, kind, index, used, t, true);
      BlocksReordered(FullBlocks(c, lookup), order);
      assert order[0] in order;
    } else {
      var pick :| SameDayPick(pick, c.possibleTimeSlotIds, c.sessionDuration, lookup) &&
        if pick == [] then false else MayMoveInto([pick], session, c, kind, index, used, t, true);
    }
  }

  lemma ResortLecturers(block: seq<int>, session: SessionData, c: Candidate, index: ConflictIndex, t: SessionData)
    requires NoDup(c.lecturerPool) && MayResort(block, session, c, index, t)
    ensures t.roomId == session.roomId
    ensures t.lecturerIds == session.lecturerIds ||
      (PoolChoice(c, t.lecturerIds, SwapSize(c, session.lecturerIds)) &&
       Suits(block, t.lecturerIds, session.lecturerIds, index))
    ensures (forall order :: Reordered(order, c.lecturerPool) ==>
               SomeChoiceSuits(order, SwapSize(c, session.lecturerIds), block, session.lecturerIds, index)) ==>
      Suits(block, t.lecturerIds, session.lecturerIds, index)
    ensures (forall order :: Reordered(order, c.lecturerPool) ==>
               !SomeChoiceSuits(order, SwapSize(c, session.lecturerIds), block, session.lecturerIds, index)) ==>
      t.lecturerIds == session.lecturerIds
  {
    hide MaySwap, PoolChoice, Suits, Reordered, NoDup, SomeChoiceSuits, SwapSize;
    var swap :| MaySwap(block, c, session.lecturerIds, index, swap) &&
      t == SessionData(session.roomId, block, if swap.Some? then swap.value else session.lecturerIds);
    if swap.Some? {
      SwapSuits(block, c, session.lecturerIds, index, swap.value);
      NeedsSuited(block, c, session.lecturerIds, index, swap.value);
    } else if forall order :: Reordered(order, c.lecturerPool) ==>
      SomeChoiceSuits(order, SwapSize(c, session.lecturerIds), block, session.lecturerIds, index) {
      SomeSwapSuits(block, c, session.lecturerIds, index);
    }
  }

  lemma NeedsSuited(block: seq<int>, c: Candidate, current: seq<int>, index: ConflictIndex, ls: seq<int>)
    requires MaySwap(block, c, current, index, Some(ls))
    ensures exists order ::
      Reordered(order, c.lecturerPool) && SomeChoiceSuits(order, SwapSize(c, current), block, current, index)
  {
    hide Suits, Choice, Reordered, SwapSize;
    var order :| Reordered(order, c.lecturerPool) &&
      FirstFit(order, SwapSize(c, current), block, current, index, Some(ls));
    var start :| FirstFitAt(order, SwapSize(c, current), block, current, index, ls, start);
    assert SomeChoiceSuits(order, SwapSize(c, current), block, current, index);
  }

  /** Without a full block, a session that is too short, or whose room or slots clash, moves onto the best pick of one
      day: in its own room where that works, else in another allowed one, and as a last resort only if none works. It
      stays only if there is no slot to pick. */
  lemma DegradedMeans(c: Candidate, lookup: SlotLookup, kind: Kind, session: SessionData, index: ConflictIndex,
                      used: set<int>, t: SessionData, lastResort: bool)
    requires NoDup(c.lecturerPool) && FullBlocks(c, lookup) == []
    requires |session.timeSlotIds| != c.sessionDuration ||
      RoomOrGeneSlotConflicts(session.timeSlotIds, session.roomId, index, used)
    requires MayRepair(c, lookup, kind, session, index, used, t, lastResort)
    ensures if c.sessionDuration <= 0 || MostSlots(c.possibleTimeSlotIds, lookup) == 0
            then t == session && !lastResort
            else BestPick(t.timeSlotIds, c.possibleTimeSlotIds, c.sessionDuration, lookup) &&
                 PlacedAt(c, kind, session, index, used, t, lastResort)
  {
    hide BestPick, OneDay, MayMoveInto, Blocks, RoomOrGeneSlotConflicts, LecturerConflicts, MaySwap, NoDup, PlacedAt;
    var pick :| SameDayPick(pick, c.possibleTimeSlotIds, c.sessionDuration, lookup) &&
      if pick == [] then t == session && !lastResort
      else MayMoveInto([pick], session, c, kind, index, used, t, lastResort);
    if pick != [] { PickPlaced(c, kind, session, index, used, t, lastResort, pick); }
  }

  /** Where the slots of t were put for the session. */
  ghost predicate PlacedAt(c: Candidate, kind: Kind, session: SessionData, index: ConflictIndex, used: set<int>,
                           t: SessionData, lastResort: bool) {
    && (lastResort ==> forall room :: AllowedRoom(c, kind, session.roomId, room) ==>
          NoWay(t.timeSlotIds, room, session.lecturerIds, c, index, used))
    && (!lastResort && |session.lecturerIds| == 1 && c.lecturerPool != [] ==>
          !NoWay(t.timeSlotIds, t.roomId, session.lecturerIds, c, index, used))
    && AllowedRoom(c, kind, session.roomId, t.roomId)
    && (t.roomId != session.roomId ==> NoWay(t.timeSlotIds, session.roomId, session.lecturerIds, c, index, used))
    && (lastResort ==> t.roomId == session.roomId)
    && (!lastResort ==> Clean(t, index, used))
  }

  lemma PickPlaced(c: Candidate, kind: Kind, session: SessionData, index: ConflictIndex, used: set<int>,
                   t: SessionData, lastResort: bool, pick: seq<int>)
    requires NoDup(c.lecturerPool) && MayMoveInto([pick], session, c, kind, index, used, t, lastResort)
    ensures t.timeSlotIds == pick && PlacedAt(c, kind, session, index, used, t, lastResort)
  {
    hide NoWay, Clean, MayTry, MaySearchRooms, MayResort, LecturerStep, NoDup, AllowedRoom;
    var placed :| MaySearch([pick], session, c, kind, index, used, placed) &&
      if placed.Some? then t == placed.value && !lastResort
      else lastResort && MayResort([pick][0], session, c, index, t);
    assert pick in [pick];
    SearchNoneIff([pick], session, c, kind, index, used);
    TryNoneIff([pick], session.roomId, session, c, index, used);
    if placed.Some? {
      SearchFinds([pick], session, c, kind, index, used, t);
      OwnRoomFirst([pick], session, c, kind, index, used, t);
      if |session.lecturerIds| == 1 && c.lecturerPool != [] { FoundIsAWay(c, session, index, used, t); }
    } else {
      ResortMeans(pick, session, c, index, t);
      OwnRoomAllowed(c, kind, session.roomId);
    }
  }

  lemma OwnRoomAllowed(c: Candidate, kind: Kind, room: int)
    ensures AllowedRoom(c, kind, room, room)
  {
  }

  lemma FoundIsAWay(c: Candidate, session: SessionData, index: ConflictIndex, used: set<int>, t: SessionData)
    requires |session.lecturerIds| == 1 && c.lecturerPool != [] && Clean(t, index, used)
    requires LecturerStep(c, session.lecturerIds, t.lecturerIds)
    ensures !NoWay(t.timeSlotIds, t.roomId, session.lecturerIds, c, index, used)
  {
    hide RoomOrGeneSlotConflicts, LecturerConflicts, MaySwap;
    if t.lecturerIds != session.lecturerIds {
      var l := t.lecturerIds[0];
      assert t.lecturerIds == [l] && l in c.lecturerPool && !LecturerConflicts(t.timeSlotIds, [l], index);
    }
  }

  /** What was found in another room was not to be found in the own one. */
  lemma OwnRoomFirst(blocks: seq<seq<int>>, session: SessionData, c: Candidate, kind: Kind, index: ConflictIndex,
                     used: set<int>, t: SessionData)
    requires NoDup(c.lecturerPool) && MaySearch(blocks, session, c, kind, index, used, Some(t))
    ensures t.roomId != session.roomId ==> MayTry(blocks, session.roomId, session, c, index, used, None)
  {
    hide MayTry, MaySearchRooms, NoDup;
    var q :| MayTry(blocks, session.roomId, session, c, index, used, q) &&
      if q.Some? then Some(t) == q
      else if kind == FIXED then false
      else MaySearchRooms(blocks, session, c, index, used, Some(t));
    if q.Some? { TryFinds(blocks, session.roomId, session, c, index, used, t); }
  }
}
