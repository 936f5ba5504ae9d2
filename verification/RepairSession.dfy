/** Conflict-aware repair of one session: room, block and lecturer set. */
module RepairSession {
  import opened Prelude
  import opened Candidates
  import opened Timetable
  import opened SameDay
  import opened Genes
  import opened Fitness
  import opened WellFormed

  /** Which (room, slot) and (lecturer, slot) pairs other genes hold, and which offering holds them. */
  datatype ConflictIndex = ConflictIndex(roomTimeUsed: map<(int, int), int>, lecturerTimeUsed: map<(int, int), int>)

  /** The sessions of every gene but those of one offering. */
  function OtherSessions(ch: seq<GeneData>, excluded: int): seq<SessionData> {
    if ch == [] then []
    else
      var g := ch[|ch| - 1];
      OtherSessions(ch[..|ch| - 1], excluded) + if g.offeringId == excluded then [] else g.sessions
  }

  ghost predicate IndexOf(index: ConflictIndex, others: seq<SessionData>) {
    index.roomTimeUsed.Keys == Elements(AllRoomKeys(others)) &&
      index.lecturerTimeUsed.Keys == Elements(AllLecKeys(others))
  }

  method IndexSession(s: SessionData, index: ConflictIndex, offeringId: int, ghost others: seq<SessionData>)
    returns (index': ConflictIndex)
    requires IndexOf(index, others)
    ensures IndexOf(index', others + [s])
  {
    KeysStart(s);
    hide AllRoomKeys, AllLecKeys, RoomKeys, LecKeysUpTo, LecturersAt, Elements;
    var rooms, lecs := index.roomTimeUsed, index.lecturerTimeUsed;
    ghost var rk, r0, l0 := RoomKeys(s), AllRoomKeys(others), AllLecKeys(others);
    for i := 0 to |s.timeSlotIds|
      invariant rooms.Keys == Elements(r0) + Elements(rk[..i])
      invariant lecs.Keys == Elements(l0) + Elements(LecKeysUpTo(s, i))
    {
      var slotId := s.timeSlotIds[i];
      rooms := rooms[(s.roomId, slotId) := offeringId];
      KeysNext(s, i);
      lecs := IndexLecturers(s.lecturerIds, slotId, lecs, offeringId);
    }
    assert rk[..|s.timeSlotIds|] == rk;
    KeysStep(others, s);
    ElementsConcat(r0, rk);
    ElementsConcat(l0, LecKeys(s));
    index' := ConflictIndex(rooms, lecs);
  }

  lemma KeysStart(s: SessionData)
    ensures |RoomKeys(s)| == |s.timeSlotIds|
    ensures Elements(RoomKeys(s)[..0]) == Elements(LecKeysUpTo(s, 0)) == {}
  {
  }

  lemma KeysNext(s: SessionData, i: nat)
    requires i < |s.timeSlotIds|
    ensures Elements(RoomKeys(s)[..i + 1]) == Elements(RoomKeys(s)[..i]) + {(s.roomId, s.timeSlotIds[i])}
    ensures Elements(LecKeysUpTo(s, i + 1)) ==
      Elements(LecKeysUpTo(s, i)) + Elements(LecturersAt(s.lecturerIds, s.timeSlotIds[i]))
  {
    assert RoomKeys(s)[..i + 1] == RoomKeys(s)[..i] + [(s.roomId, s.timeSlotIds[i])];
    ElementsSnoc(RoomKeys(s)[..i], (s.roomId, s.timeSlotIds[i]));
    ElementsConcat(LecKeysUpTo(s, i), LecturersAt(s.lecturerIds, s.timeSlotIds[i]));
  }

  method IndexLecturers(lecturerIds: seq<int>, slotId: int, m: map<(int, int), int>, offeringId: int)
    returns (m': map<(int, int), int>)
    ensures m'.Keys == m.Keys + Elements(LecturersAt(lecturerIds, slotId))
  {
    m' := m;
    ghost var all := LecturersAt(lecturerIds, slotId);
    for j := 0 to |lecturerIds|
      invariant m'.Keys == m.Keys + Elements(all[..j])
    {
      assert all[..j + 1] == all[..j] + [(lecturerIds[j], slotId)];
      m' := m'[(lecturerIds[j], slotId) := offeringId];
    }
    assert all[..|lecturerIds|] == all;
  }

  method BuildConflictIndex(ch: seq<GeneData>, excludeOfferingId: int) returns (index: ConflictIndex)
    ensures IndexOf(index, OtherSessions(ch, excludeOfferingId))
  {
    hide IndexOf;
    index := ConflictIndex(map[], map[]);
    ghost var others: seq<SessionData> := [];
    assert IndexOf(index, []) by { EmptyIndex(); }
    for i := 0 to |ch|
      invariant others == OtherSessions(ch[..i], excludeOfferingId) && IndexOf(index, others)
    {
      assert ch[..i + 1][..i] == ch[..i];
      if ch[i].offeringId != excludeOfferingId {
        ghost var before := others;
        var sessions := ch[i].sessions;
        for k := 0 to |sessions|
          invariant others == before + sessions[..k] && IndexOf(index, others)
        {
          index := IndexSession(sessions[k], index, ch[i].offeringId, others);
          others := others + [sessions[k]];
        }
        assert sessions[..|sessions|] == sessions;
      }
    }
    assert ch[..|ch|] == ch;
  }

  lemma EmptyIndex()
    ensures IndexOf(ConflictIndex(map[], map[]), [])
  {
  }

  // ---------------------------------------------------------------- conflict predicates

  predicate RoomOrGeneSlotConflicts(block: seq<int>, room: int, index: ConflictIndex, usedSlotsInGene: set<int>) {
    exists slot :: slot in block && (slot in usedSlotsInGene || (room, slot) in index.roomTimeUsed)
  }

  predicate LecturerConflicts(block: seq<int>, lecturerIds: seq<int>, index: ConflictIndex) {
    exists slot, l :: slot in block && l in lecturerIds && (l, slot) in index.lecturerTimeUsed
  }

  /** The session meets no other gene in its room or through its lecturers, and no earlier sibling at its slots. */
  predicate Clean(s: SessionData, index: ConflictIndex, usedSlotsInGene: set<int>) {
    !RoomOrGeneSlotConflicts(s.timeSlotIds, s.roomId, index, usedSlotsInGene) &&
    !LecturerConflicts(s.timeSlotIds, s.lecturerIds, index)
  }

  /** A clean session is apart from every session in the index. */
  lemma CleanIsApart(s: SessionData, index: ConflictIndex, used: set<int>, others: seq<SessionData>)
    requires IndexOf(index, others) && Clean(s, index, used)
    ensures forall p :: 0 <= p < |others| ==> Apart(others[p], s)
    ensures forall slot :: slot in s.timeSlotIds ==> slot !in used
  {
    RoomKeysMembers(s);
    LecKeysMembers(s);
    forall k: (int, int) | k in RoomKeys(s) ensures k !in index.roomTimeUsed.Keys {
      var slot := k.1;
      assert slot in s.timeSlotIds && k == (s.roomId, slot);
    }
    forall k: (int, int) | k in LecKeys(s) ensures k !in index.lecturerTimeUsed.Keys {
      var slot, l := k.1, k.0;
      assert slot in s.timeSlotIds && l in s.lecturerIds && k == (l, slot);
    }
    assert forall k :: k in AllRoomKeys(others) ==> k in index.roomTimeUsed.Keys;
    assert forall k :: k in AllLecKeys(others) ==> k in index.lecturerTimeUsed.Keys;
    DisjointFromAll(others, s);
  }

  // ---------------------------------------------------------------- lecturer alternatives

  function Ascending(): int -> int { (x: int) => x }

  predicate SameLecturerSet(a: seq<int>, b: seq<int>) {
    |a| == |b| && StableSort(a, Ascending()) == StableSort(b, Ascending())
  }

  lemma LastIsLargest(a: seq<int>, x: int)
    requires SortedBy(a, Ascending()) && x in a
    ensures x <= a[|a| - 1]
  {
    var j :| 0 <= j < |a| && a[j] == x;
    assert Ascending()(a[j]) <= Ascending()(a[|a| - 1]);
  }

  lemma WithoutLast(a: seq<int>)
    requires a != [] && SortedBy(a, Ascending())
    ensures multiset(a[..|a| - 1]) == multiset(a) - multiset{a[|a| - 1]}
    ensures SortedBy(a[..|a| - 1], Ascending())
  {
    assert a == a[..|a| - 1] + [a[|a| - 1]];
  }

  lemma FrontsAgree(a: seq<int>, b: seq<int>)
    requires SortedBy(a, Ascending()) && SortedBy(b, Ascending()) && multiset(a) == multiset(b) && a != []
    ensures |a| == |b| && a[|a| - 1] == b[|b| - 1] && multiset(a[..|a| - 1]) == multiset(b[..|b| - 1])
    ensures SortedBy(a[..|a| - 1], Ascending()) && SortedBy(b[..|b| - 1], Ascending())
  {
    hide *;
    SameLast(a, b);
    WithoutLast(a);
    WithoutLast(b);
  }

  /** Two sorted lists of the same numbers end alike. */
  lemma SameLast(a: seq<int>, b: seq<int>)
    requires SortedBy(a, Ascending()) && SortedBy(b, Ascending()) && multiset(a) == multiset(b) && a != []
    ensures |a| == |b| && a[|a| - 1] == b[|b| - 1]
  {
    hide SortedBy;
    SameMultiset(a, b);
    assert a[|a| - 1] in Elements(b) && b[|b| - 1] in Elements(a);
    LastIsLargest(b, a[|a| - 1]);
    LastIsLargest(a, b[|b| - 1]);
  }

  lemma {:induction false} SortedUnique(a: seq<int>, b: seq<int>)
    requires SortedBy(a, Ascending()) && SortedBy(b, Ascending()) && multiset(a) == multiset(b)
    ensures a == b
  {
    hide *;
    if a == [] {
      SameMultiset(a, b);
    } else {
      var n := |a| - 1;
      FrontsAgree(a, b);
      SortedUnique(a[..n], b[..n]);
      assert a == a[..n] + [a[n]] && b == b[..n] + [b[n]];
    }
  }

  lemma SameLecturerSetIff(a: seq<int>, b: seq<int>)
    ensures SameLecturerSet(a, b) <==> multiset(a) == multiset(b)
  {
    if multiset(a) == multiset(b) {
      SameMultiset(a, b);
      StableSortSorts(a, Ascending());
      StableSortSorts(b, Ascending());
      SortedUnique(StableSort(a, Ascending()), StableSort(b, Ascending()));
    }
  }

  /** A same-size choice out of the pool, each lecturer once. */
  ghost predicate PoolChoice(c: Candidate, ls: seq<int>, size: nat) {
    |ls| == size && NoDup(ls) && forall l :: l in ls ==> l in c.lecturerPool
  }

  function SwapSize(c: Candidate, current: seq<int>): nat {
    Min(Max(1, |current|), |c.lecturerPool|)
  }

  /** The cyclic window of size entries from start. */
  function Window(xs: seq<int>, start: nat, size: nat): seq<int>
    requires xs != []
  {
    seq(size, offset requires 0 <= offset => xs[(start + offset) % |xs|])
  }

  lemma WindowIsChoice(xs: seq<int>, start: nat, size: nat)
    requires NoDup(xs) && size <= |xs| && start < |xs|
    ensures NoDup(Window(xs, start, size)) && forall l :: l in Window(xs, start, size) ==> l in xs
  {
    var w, n := Window(xs, start, size), |xs|;
    forall i, j | 0 <= i < j < size ensures w[i] != w[j] {
      Wrap(start + i, n);
      Wrap(start + j, n);
    }
  }

  lemma Wrap(x: nat, n: nat)
    requires x < 2 * n
    ensures x % n == if x < n then x else x - n
  {
  }

  ghost predicate Reordered<T>(order: seq<T>, pool: seq<T>) {
    multiset(order) == multiset(pool)
  }

  lemma SingleWindow(order: seq<int>, start: nat)
    requires start < |order|
    ensures Window(order, start, 1) == [order[start]]
  {
    Wrap(start, |order|);
  }

  /** The lecturers of one cyclic window, ascending. */
  function Choice(order: seq<int>, start: nat, size: nat): seq<int>
    requires order != []
  {
    StableSort(Window(order, start, size), Ascending())
  }

  lemma SingleChoice(order: seq<int>, start: nat)
    requires start < |order|
    ensures Choice(order, start, 1) == [order[start]]
  {
    SingleWindow(order, start);
    assert [order[start]][..0] == [];
    assert StableSort([], Ascending()) == [];
  }

  lemma ChoiceIsPool(c: Candidate, order: seq<int>, start: nat, size: nat)
    requires Reordered(order, c.lecturerPool) && NoDup(c.lecturerPool) && size <= |c.lecturerPool| && start < |order|
    ensures PoolChoice(c, Choice(order, start, size), size)
    ensures Elements(Choice(order, start, size)) == Elements(Window(order, start, size))
  {
    var w := Window(order, start, size);
    SameMultiset(c.lecturerPool, order);
    WindowIsChoice(order, start, size);
    SameMultiset(w, StableSort(w, Ascending()));
    hide StableSort, NoDup;
    forall l | l in Choice(order, start, size) ensures l in c.lecturerPool {
      assert l in Elements(w) && l in order && l in Elements(order);
    }
  }

  /** The alternatives are the choices along the order that start before n, each listed where it first occurs:
      number i starts at pos[i], and all choices that start earlier are listed before it. */
  ghost predicate Lists(order: seq<int>, size: nat, n: nat, alternatives: seq<seq<int>>, pos: seq<nat>)
    requires n <= |order|
  {
    && |pos| == |alternatives|
    && (forall i :: 0 <= i < |pos| ==> pos[i] < n && alternatives[i] == Choice(order, pos[i], size))
    && (forall i, q :: 0 <= i < |pos| && 0 <= q < pos[i] ==> Choice(order, q, size) in alternatives[..i])
    && (forall q :: 0 <= q < n ==> Choice(order, q, size) in alternatives)
  }

  lemma ListsMore(order: seq<int>, size: nat, n: nat, alternatives: seq<seq<int>>, pos: seq<nat>)
    requires n < |order| && Lists(order, size, n, alternatives, pos)
    ensures var a := Choice(order, n, size);
      if a in alternatives then Lists(order, size, n + 1, alternatives, pos)
      else Lists(order, size, n + 1, alternatives + [a], pos + [n])
  {
    hide Choice;
    var a := Choice(order, n, size);
    if a !in alternatives {
      var more, pos' := alternatives + [a], pos + [n];
      forall i, q | 0 <= i < |pos'| && 0 <= q < pos'[i] ensures Choice(order, q, size) in more[..i] {
        if i < |pos| {
          assert more[..i] == alternatives[..i];
        } else {
          assert more[..i] == alternatives;
        }
      }
    }
  }

  lemma ListsNothing(order: seq<int>, size: nat)
    ensures Lists(order, size, 0, [], [])
  {
  }

  lemma ListsSingles(order: seq<int>, alternatives: seq<seq<int>>, pos: seq<nat>)
    requires |alternatives| == |order| == |pos|
    requires forall i :: 0 <= i < |order| ==> alternatives[i] == [order[i]] && pos[i] == i
    ensures Lists(order, 1, |order|, alternatives, pos)
  {
    forall q | 0 <= q < |order| ensures Choice(order, q, 1) == alternatives[q] { SingleChoice(order, q); }
    hide Choice;
    forall i, q | 0 <= i < |pos| && 0 <= q < pos[i] ensures Choice(order, q, 1) in alternatives[..i] {
      assert alternatives[..i][q] == alternatives[q];
    }
  }

  /** All cyclic windows of a shuffled pool, each sorted and offered once. */
  method LecturerAlternatives(c: Candidate, currentLecturerIds: seq<int>)
    returns (alternatives: seq<seq<int>>, ghost order: seq<int>, ghost pos: seq<nat>)
    requires NoDup(c.lecturerPool)
    ensures forall a :: a in alternatives ==> PoolChoice(c, a, SwapSize(c, currentLecturerIds))
    ensures Reordered(order, c.lecturerPool)
    ensures Lists(order, SwapSize(c, currentLecturerIds), |order|, alternatives, pos)
    ensures SwapSize(c, currentLecturerIds) == 1 ==> forall l :: l in c.lecturerPool ==> [l] in alternatives
  {
    var pool := c.lecturerPool;
    if |pool| == 0 {
      ListsNothing([], SwapSize(c, currentLecturerIds));
      return [], [], [];
    }
    var size := SwapSize(c, currentLecturerIds);
    var shuffled := ShuffledPool(c);
    order := shuffled;
    hide Window, Choice, PoolChoice, Lists, Reordered, Elements, NoDup;
    if size == 1 {
      alternatives := seq(|shuffled|, i requires 0 <= i < |shuffled| => [shuffled[i]]);
      pos := seq(|shuffled|, i requires 0 <= i < |shuffled| => i);
      ListsSingles(shuffled, alternatives, pos);
      SinglesOffered(c, shuffled, alternatives);
      return;
    }
    alternatives, pos := DistinctChoices(c, shuffled, size);
  }

  /** Each cyclic window of the shuffled pool, sorted, unless it was seen before. */
  method DistinctChoices(c: Candidate, shuffled: seq<int>, size: nat)
    returns (alternatives: seq<seq<int>>, ghost pos: seq<nat>)
    requires NoDup(c.lecturerPool) && Reordered(shuffled, c.lecturerPool) && size <= |c.lecturerPool|
    ensures Lists(shuffled, size, |shuffled|, alternatives, pos)
    ensures forall a :: a in alternatives ==> PoolChoice(c, a, size)
  {
    hide *;
    alternatives, pos := [], [];
    var seen: set<seq<int>> := {};
    ListsNothing(shuffled, size);
    for start := 0 to |shuffled|
      invariant forall a :: a in alternatives ==> PoolChoice(c, a, size)
      invariant Lists(shuffled, size, start, alternatives, pos) && seen == set a | a in alternatives
    {
      var candidateIds := Choice(shuffled, start, size);
      ChoiceIsPool(c, shuffled, start, size);
      ListsMore(shuffled, size, start, alternatives, pos);
      if candidateIds !in seen {
        seen := seen + {candidateIds};
        alternatives, pos := alternatives + [candidateIds], pos + [start];
      }
    }
  }

  method ShuffledPool(c: Candidate) returns (shuffled: seq<int>)
    requires NoDup(c.lecturerPool)
    ensures Reordered(shuffled, c.lecturerPool) && NoDup(shuffled) && |shuffled| == |c.lecturerPool|
    ensures forall l :: l in shuffled <==> l in c.lecturerPool
  {
    shuffled := FisherYatesShuffle(c.lecturerPool);
    SameMultiset(c.lecturerPool, shuffled);
    assert forall l :: l in shuffled <==> l in Elements(c.lecturerPool);
  }

  lemma SinglesOffered(c: Candidate, shuffled: seq<int>, alternatives: seq<seq<int>>)
    requires |alternatives| == |shuffled| && forall i :: 0 <= i < |shuffled| ==> alternatives[i] == [shuffled[i]]
    requires forall l :: l in shuffled <==> l in c.lecturerPool
    ensures forall a :: a in alternatives ==> PoolChoice(c, a, 1)
    ensures forall l :: l in c.lecturerPool ==> [l] in alternatives
  {
    forall a | a in alternatives ensures PoolChoice(c, a, 1) {
      var i :| 0 <= i < |alternatives| && alternatives[i] == a;
      assert shuffled[i] in shuffled;
    }
    forall l | l in c.lecturerPool ensures [l] in alternatives {
      var i :| 0 <= i < |shuffled| && shuffled[i] == l;
      assert alternatives[i] == [l];
    }
  }

  /** The lecturer sets that a swap may use when one lecturer teaches: every member of the pool. */
  ghost predicate EveryLecturerConflicts(block: seq<int>, c: Candidate, index: ConflictIndex) {
    forall l :: l in c.lecturerPool ==> LecturerConflicts(block, [l], index)
  }

  /** Other lecturers that are free in all slots of the block. */
  ghost predicate Suits(block: seq<int>, ls: seq<int>, current: seq<int>, index: ConflictIndex) {
    multiset(ls) != multiset(current) && !LecturerConflicts(block, ls, index)
  }

  /** The first choice along the order that suits. */
  ghost predicate FirstFit(order: seq<int>, size: nat, block: seq<int>, current: seq<int>, index: ConflictIndex,
                           swap: Option<seq<int>>) {
    if swap.None? then forall q :: 0 <= q < |order| ==> !Suits(block, Choice(order, q, size), current, index)
    else exists start :: FirstFitAt(order, size, block, current, index, swap.value, start)
  }

  ghost predicate FirstFitAt(order: seq<int>, size: nat, block: seq<int>, current: seq<int>, index: ConflictIndex,
                             ls: seq<int>, start: nat) {
    && start < |order| && ls == Choice(order, start, size) && Suits(block, ls, current, index)
    && forall q :: 0 <= q < start ==> !Suits(block, Choice(order, q, size), current, index)
  }

  /** What pickLecturerSwapForBlock may return: the first fit along some order of the pool. */
  ghost predicate MaySwap(block: seq<int>, c: Candidate, current: seq<int>, index: ConflictIndex,
                          swap: Option<seq<int>>) {
    exists order ::
      Reordered(order, c.lecturerPool) && FirstFit(order, SwapSize(c, current), block, current, index, swap)
  }

  /** What the loop over the alternatives has found out. */
  ghost predicate AllFail(alternatives: seq<seq<int>>, n: nat, block: seq<int>, current: seq<int>, index: ConflictIndex)
    requires n <= |alternatives|
  {
    forall j :: 0 <= j < n ==> !Suits(block, alternatives[j], current, index)
  }

  lemma FailedChoices(alternatives: seq<seq<int>>, order: seq<int>, pos: seq<nat>, size: nat, block: seq<int>,
                      current: seq<int>, index: ConflictIndex)
    requires Lists(order, size, |order|, alternatives, pos)
    requires AllFail(alternatives, |alternatives|, block, current, index)
    ensures FirstFit(order, size, block, current, index, None)
  {
    hide Choice, Suits;
    forall q | 0 <= q < |order| ensures !Suits(block, Choice(order, q, size), current, index) {
      var j :| 0 <= j < |alternatives| && alternatives[j] == Choice(order, q, size);
    }
  }

  lemma FirstOfChoices(alternatives: seq<seq<int>>, order: seq<int>, pos: seq<nat>, size: nat, block: seq<int>,
                       current: seq<int>, index: ConflictIndex, i: nat)
    requires Lists(order, size, |order|, alternatives, pos) && i < |alternatives|
    requires AllFail(alternatives, i, block, current, index) && Suits(block, alternatives[i], current, index)
    ensures FirstFit(order, size, block, current, index, Some(alternatives[i]))
  {
    hide Choice, Suits;
    forall q | 0 <= q < pos[i] ensures !Suits(block, Choice(order, q, size), current, index) {
      var earlier := alternatives[..i];
      assert Choice(order, q, size) in earlier;
      var j :| 0 <= j < |earlier| && earlier[j] == Choice(order, q, size);
      assert alternatives[j] == earlier[j];
    }
    assert FirstFitAt(order, size, block, current, index, alternatives[i], pos[i]);
  }

  lemma FailedSingles(alternatives: seq<seq<int>>, c: Candidate, block: seq<int>, current: seq<int>,
                      index: ConflictIndex)
    requires AllFail(alternatives, |alternatives|, block, current, index) && |current| == 1 &&
      LecturerConflicts(block, current, index)
    requires forall l :: l in c.lecturerPool ==> [l] in alternatives
    ensures EveryLecturerConflicts(block, c, index)
  {
    hide LecturerConflicts;
    forall l | l in c.lecturerPool ensures LecturerConflicts(block, [l], index) {
      var j :| 0 <= j < |alternatives| && alternatives[j] == [l];
      if multiset([l]) == multiset(current) { SingletonFromMultiset(l, current); }
    }
  }

  method PickLecturerSwapForBlock(block: seq<int>, c: Candidate, currentLecturerIds: seq<int>, index: ConflictIndex)
    returns (swap: Option<seq<int>>)
    requires NoDup(c.lecturerPool)
    ensures MaySwap(block, c, currentLecturerIds, index, swap)
    ensures swap.Some? ==> PoolChoice(c, swap.value, SwapSize(c, currentLecturerIds))
    ensures swap.Some? ==> !LecturerConflicts(block, swap.value, index)
    ensures swap.Some? ==> multiset(swap.value) != multiset(currentLecturerIds)
    ensures swap.None? && |currentLecturerIds| == 1 && LecturerConflicts(block, currentLecturerIds, index) ==>
      EveryLecturerConflicts(block, c, index)
  {
    hide LecturerConflicts, PoolChoice, SameLecturerSet, Lists, FirstFit, Reordered, EveryLecturerConflicts;
    var alternatives;
    ghost var order, pos;
    alternatives, order, pos := LecturerAlternatives(c, currentLecturerIds);
    ghost var size := SwapSize(c, currentLecturerIds);
    for i := 0 to |alternatives|
      invariant AllFail(alternatives, i, block, currentLecturerIds, index)
    {
      SameLecturerSetIff(alternatives[i], currentLecturerIds);
      if !SameLecturerSet(alternatives[i], currentLecturerIds) && !LecturerConflicts(block, alternatives[i], index) {
        assert alternatives[i] in alternatives;
        FirstOfChoices(alternatives, order, pos, size, block, currentLecturerIds, index, i);
        return Some(alternatives[i]);
      }
    }
    FailedChoices(alternatives, order, pos, size, block, currentLecturerIds, index);
    if |currentLecturerIds| == 1 && LecturerConflicts(block, currentLecturerIds, index) {
      if |c.lecturerPool| > 0 { assert SwapSize(c, currentLecturerIds) == 1; }
      FailedSingles(alternatives, c, block, currentLecturerIds, index);
    }
    return None;
  }

  lemma SingletonFromMultiset(l: int, xs: seq<int>)
    requires multiset([l]) == multiset(xs) && |xs| == 1
    ensures xs == [l]
  {
    assert xs[0] in multiset(xs);
  }

  /** A full-size choice out of the pool is the pool. */
  lemma FullChoiceIsPool(c: Candidate, ls: seq<int>)
    requires NoDup(c.lecturerPool) && PoolChoice(c, ls, |c.lecturerPool|)
    ensures multiset(ls) == multiset(c.lecturerPool)
  {
    NoDupSize(ls);
    NoDupSize(c.lecturerPool);
    assert forall l :: l in Elements(ls) ==> l in Elements(c.lecturerPool);
    SubsetSameSize(Elements(ls), Elements(c.lecturerPool));
    forall l ensures multiset(ls)[l] == multiset(c.lecturerPool)[l] {
      NoDupCountsOne(ls, l);
      NoDupCountsOne(c.lecturerPool, l);
      assert l in ls <==> l in Elements(ls);
      assert l in c.lecturerPool <==> l in Elements(c.lecturerPool);
      assert l in ls <==> l in multiset(ls);
      assert l in c.lecturerPool <==> l in multiset(c.lecturerPool);
    }
  }

  /** A repair swap keeps a cohort's lecturers legal, and a single offering never gets one. */
  lemma SwapKeepsLecturersOk(c: Candidate, k: nat, current: seq<int>, ls: seq<int>)
    requires CandidateOk(c) && LecturersOk(c, k, current)
    requires PoolChoice(c, ls, SwapSize(c, current)) && multiset(ls) != multiset(current)
    ensures c.MultiSibling() && LecturersOk(c, k, ls)
  {
    LecturerCountFixed(c, k, current);
    if !c.MultiSibling() {
      SameMultiset(c.lecturerPool, c.lecturerIds);
      FullChoiceIsPool(c, ls);
    }
  }

  // ---------------------------------------------------------------- the search

  /** Lecturers kept, or swapped for another same-size choice out of the pool. */
  ghost predicate LecturerStep(c: Candidate, current: seq<int>, ls: seq<int>) {
    ls == current || (PoolChoice(c, ls, SwapSize(c, current)) && multiset(ls) != multiset(current))
  }

  ghost predicate AllowedRoom(c: Candidate, kind: Kind, current: int, room: int) {
    room == current || (kind == FLEXIBLE && room in c.possibleRoomIds)
  }

  /** The block cannot be used in this room: a room or sibling clash, or its lecturers clash and so does every swap
      along some order of the pool; for a single lecturer that is everybody else in the pool. */
  ghost predicate NoWay(block: seq<int>, room: int, current: seq<int>, c: Candidate, index: ConflictIndex,
                        used: set<int>) {
    RoomOrGeneSlotConflicts(block, room, index, used) ||
    (LecturerConflicts(block, current, index) && MaySwap(block, c, current, index, None)
     && (|current| == 1 ==> EveryLecturerConflicts(block, c, index)))
  }

  ghost predicate Found(s: SessionData, blocks: seq<seq<int>>, session: SessionData, c: Candidate, index: ConflictIndex,
                        used: set<int>) {
    s.timeSlotIds in blocks && Clean(s, index, used) && LecturerStep(c, session.lecturerIds, s.lecturerIds)
  }

  /** What the search through the blocks may return for one room. */
  ghost predicate MayTry(blocks: seq<seq<int>>, room: int, session: SessionData, c: Candidate, index: ConflictIndex,
                         used: set<int>, r: Option<SessionData>) {
    if blocks == [] then r.None?
    else if RoomOrGeneSlotConflicts(blocks[0], room, index, used) then
      MayTry(blocks[1..], room, session, c, index, used, r)
    else if !LecturerConflicts(blocks[0], session.lecturerIds, index) then
      r == Some(SessionData(room, blocks[0], session.lecturerIds))
    else
      exists swap ::
        MaySwap(blocks[0], c, session.lecturerIds, index, swap) &&
        if swap.Some? then r == Some(SessionData(room, blocks[0], swap.value))
        else MayTry(blocks[1..], room, session, c, index, used, r)
  }

  /** What the search through the other rooms may return. */
  ghost predicate MayTryRooms(blocks: seq<seq<int>>, rooms: seq<int>, session: SessionData, c: Candidate,
                              index: ConflictIndex, used: set<int>, r: Option<SessionData>) {
    if rooms == [] then r.None?
    else if rooms[0] == session.roomId then MayTryRooms(blocks, rooms[1..], session, c, index, used, r)
    else
      exists q ::
        MayTry(blocks, rooms[0], session, c, index, used, q) &&
        if q.Some? then r == q else MayTryRooms(blocks, rooms[1..], session, c, index, used, r)
  }

  ghost predicate MaySearchRooms(blocks: seq<seq<int>>, session: SessionData, c: Candidate, index: ConflictIndex,
                                 used: set<int>, r: Option<SessionData>) {
    exists rooms :: Reordered(rooms, c.possibleRoomIds) && MayTryRooms(blocks, rooms, session, c, index, used, r)
  }

  /** The current room first, then, for a flexible gene, the allowed rooms in any order. */
  ghost predicate MaySearch(blocks: seq<seq<int>>, session: SessionData, c: Candidate, kind: Kind,
                            index: ConflictIndex, used: set<int>, r: Option<SessionData>) {
    exists q ::
      MayTry(blocks, session.roomId, session, c, index, used, q) &&
      if q.Some? then r == q
      else if kind == FIXED then r.None?
      else MaySearchRooms(blocks, session, c, index, used, r)
  }

  /** The last resort keeps the room, takes the block and swaps the lecturers where it can. */
  ghost predicate MayResort(block: seq<int>, session: SessionData, c: Candidate, index: ConflictIndex, t: SessionData) {
    exists swap ::
      MaySwap(block, c, session.lecturerIds, index, swap) &&
      t == SessionData(session.roomId, block, if swap.Some? then swap.value else session.lecturerIds)
  }

  ghost predicate MayMoveInto(blocks: seq<seq<int>>, session: SessionData, c: Candidate, kind: Kind,
                              index: ConflictIndex, used: set<int>, t: SessionData, lastResort: bool)
    requires blocks != []
  {
    exists placed ::
      MaySearch(blocks, session, c, kind, index, used, placed) &&
      if placed.Some? then t == placed.value && !lastResort
      else lastResort && MayResort(blocks[0], session, c, index, t)
  }

  /** The search over all full blocks in any order, or over a same-day pick when there is none. */
  ghost predicate MayMove(c: Candidate, lookup: SlotLookup, kind: Kind, session: SessionData, index: ConflictIndex,
                          used: set<int>, t: SessionData, lastResort: bool) {
    var blocks := Blocks(c.possibleTimeSlotIds, c.sessionDuration, lookup);
    if blocks != [] then
      exists order ::
        Reordered(order, blocks) && order != [] && MayMoveInto(order, session, c, kind, index, used, t, lastResort)
    else
      exists pick ::
        SameDayPick(pick, c.possibleTimeSlotIds, c.sessionDuration, lookup) &&
        if pick == [] then t == session && !lastResort
        else MayMoveInto([pick], session, c, kind, index, used, t, lastResort)
  }

  ghost predicate KeepsSession(c: Candidate, session: SessionData, index: ConflictIndex, used: set<int>) {
    Clean(session, index, used) && |session.timeSlotIds| == c.sessionDuration
  }

  ghost predicate OnlyLecturersClash(c: Candidate, session: SessionData, index: ConflictIndex, used: set<int>) {
    && |session.timeSlotIds| == c.sessionDuration
    && LecturerConflicts(session.timeSlotIds, session.lecturerIds, index)
    && !RoomOrGeneSlotConflicts(session.timeSlotIds, session.roomId, index, used)
  }

  /** What repairSessionAsBlock may make of a session, over all orders of its shuffles. Where a full block exists,
      every order of the blocks, of the rooms and of the pool in each call is a possible shuffle. */
  ghost predicate MayRepair(c: Candidate, lookup: SlotLookup, kind: Kind, session: SessionData, index: ConflictIndex,
                            used: set<int>, t: SessionData, lastResort: bool) {
    if KeepsSession(c, session, index, used) then t == session && !lastResort
    else if OnlyLecturersClash(c, session, index, used) then
      exists swap ::
        MaySwap(session.timeSlotIds, c, session.lecturerIds, index, swap) &&
        if swap.Some? then t == session.(lecturerIds := swap.value) && !lastResort
        else MayMove(c, lookup, kind, session, index, used, t, lastResort)
    else MayMove(c, lookup, kind, session, index, used, t, lastResort)
  }

  lemma MayTryStep(blocks: seq<seq<int>>, i: nat, room: int, session: SessionData, c: Candidate, index: ConflictIndex,
                   used: set<int>, r: Option<SessionData>)
    requires i < |blocks| && MayTry(blocks[i + 1..], room, session, c, index, used, r)
    requires RoomOrGeneSlotConflicts(blocks[i], room, index, used) ||
      (LecturerConflicts(blocks[i], session.lecturerIds, index) &&
       MaySwap(blocks[i], c, session.lecturerIds, index, None))
    ensures MayTry(blocks[i..], room, session, c, index, used, r)
  {
    hide RoomOrGeneSlotConflicts, LecturerConflicts, MaySwap;
    assert blocks[i..][0] == blocks[i] && blocks[i..][1..] == blocks[i + 1..];
  }

  lemma MayTryHere(blocks: seq<seq<int>>, i: nat, room: int, session: SessionData, c: Candidate, index: ConflictIndex,
                   used: set<int>, ls: seq<int>)
    requires i < |blocks| && !RoomOrGeneSlotConflicts(blocks[i], room, index, used)
    requires if LecturerConflicts(blocks[i], session.lecturerIds, index)
             then MaySwap(blocks[i], c, session.lecturerIds, index, Some(ls))
             else ls == session.lecturerIds
    ensures MayTry(blocks[i..], room, session, c, index, used, Some(SessionData(room, blocks[i], ls)))
  {
    hide RoomOrGeneSlotConflicts, LecturerConflicts, MaySwap;
    assert blocks[i..][0] == blocks[i] && blocks[i..] != [];
    if LecturerConflicts(blocks[i], session.lecturerIds, index) {
      var swap := Some(ls);
      assert MaySwap(blocks[i], c, session.lecturerIds, index, swap);
    }
  }

  /** The blocks before i were tried in vain: what is found behind them is found from the start. */
  ghost predicate TriedInVain(blocks: seq<seq<int>>, i: nat, room: int, session: SessionData, c: Candidate,
                              index: ConflictIndex, used: set<int>)
    requires i <= |blocks|
  {
    && (forall j :: 0 <= j < i ==> NoWay(blocks[j], room, session.lecturerIds, c, index, used))
    && (forall r :: MayTry(blocks[i..], room, session, c, index, used, r) ==>
          MayTry(blocks, room, session, c, index, used, r))
  }

  lemma OneMoreInVain(blocks: seq<seq<int>>, i: nat, room: int, session: SessionData, c: Candidate,
                      index: ConflictIndex, used: set<int>)
    requires i < |blocks| && TriedInVain(blocks, i, room, session, c, index, used)
    requires NoWay(blocks[i], room, session.lecturerIds, c, index, used)
    ensures TriedInVain(blocks, i + 1, room, session, c, index, used)
  {
    hide MayTry, RoomOrGeneSlotConflicts, LecturerConflicts, MaySwap, EveryLecturerConflicts;
    forall r | MayTry(blocks[i + 1..], room, session, c, index, used, r)
      ensures MayTry(blocks, room, session, c, index, used, r) {
      MayTryStep(blocks, i, room, session, c, index, used, r);
    }
  }

  /** The first block that works in one room, with the current lecturers or a swap. */
  method TryRoom(blocks: seq<seq<int>>, room: int, session: SessionData, c: Candidate, index: ConflictIndex,
                 used: set<int>)
    returns (r: Option<SessionData>)
    requires NoDup(c.lecturerPool)
    ensures MayTry(blocks, room, session, c, index, used, r)
    ensures r.Some? ==> r.value.roomId == room && Found(r.value, blocks, session, c, index, used)
    ensures r.None? ==> forall b :: b in blocks ==> NoWay(b, room, session.lecturerIds, c, index, used)
  {
    hide RoomOrGeneSlotConflicts, LecturerConflicts, PoolChoice, EveryLecturerConflicts, MaySwap, MayTry, TriedInVain;
    StartInVain(blocks, room, session, c, index, used);
    for i := 0 to |blocks|
      invariant TriedInVain(blocks, i, room, session, c, index, used)
    {
      var block := blocks[i];
      if !RoomOrGeneSlotConflicts(block, room, index, used) {
        if !LecturerConflicts(block, session.lecturerIds, index) {
          MayTryHere(blocks, i, room, session, c, index, used, session.lecturerIds);
          InVainMeans(blocks, i, room, session, c, index, used);
          return Some(SessionData(room, block, session.lecturerIds));
        }
        var swap := PickLecturerSwapForBlock(block, c, session.lecturerIds, index);
        if swap.Some? {
          MayTryHere(blocks, i, room, session, c, index, used, swap.value);
          InVainMeans(blocks, i, room, session, c, index, used);
          return Some(SessionData(room, block, swap.value));
        }
      }
      OneMoreInVain(blocks, i, room, session, c, index, used);
    }
    AllInVain(blocks, room, session, c, index, used);
    return None;
  }

  lemma StartInVain(blocks: seq<seq<int>>, room: int, session: SessionData, c: Candidate, index: ConflictIndex,
                    used: set<int>)
    ensures TriedInVain(blocks, 0, room, session, c, index, used)
  {
    assert blocks[0..] == blocks;
  }

  lemma InVainMeans(blocks: seq<seq<int>>, i: nat, room: int, session: SessionData, c: Candidate,
                    index: ConflictIndex, used: set<int>)
    requires i <= |blocks| && TriedInVain(blocks, i, room, session, c, index, used)
    ensures forall r :: MayTry(blocks[i..], room, session, c, index, used, r) ==>
      MayTry(blocks, room, session, c, index, used, r)
  {
    hide MayTry, NoWay;
  }

  lemma AllInVain(blocks: seq<seq<int>>, room: int, session: SessionData, c: Candidate, index: ConflictIndex,
                  used: set<int>)
    requires TriedInVain(blocks, |blocks|, room, session, c, index, used)
    ensures MayTry(blocks, room, session, c, index, used, None)
    ensures forall b :: b in blocks ==> NoWay(b, room, session.lecturerIds, c, index, used)
  {
    hide NoWay;
    assert blocks[|blocks|..] == [];
    assert MayTry([], room, session, c, index, used, None);
  }

  /** The rooms before i were tried in vain. */
  ghost predicate RoomsInVain(blocks: seq<seq<int>>, rooms: seq<int>, i: nat, session: SessionData, c: Candidate,
                              index: ConflictIndex, used: set<int>)
    requires i <= |rooms|
  {
    forall r :: MayTryRooms(blocks, rooms[i..], session, c, index, used, r) ==>
      MayTryRooms(blocks, rooms, session, c, index, used, r)
  }

  lemma RoomTried(blocks: seq<seq<int>>, rooms: seq<int>, i: nat, session: SessionData, c: Candidate,
                  index: ConflictIndex, used: set<int>, q: Option<SessionData>)
    requires i < |rooms| && RoomsInVain(blocks, rooms, i, session, c, index, used)
    requires rooms[i] != session.roomId ==> MayTry(blocks, rooms[i], session, c, index, used, q)
    ensures q.None? || rooms[i] == session.roomId ==> RoomsInVain(blocks, rooms, i + 1, session, c, index, used)
    ensures q.Some? && rooms[i] != session.roomId ==> MayTryRooms(blocks, rooms, session, c, index, used, q)
  {
    hide MayTry;
    assert rooms[i..] != [] && rooms[i..][0] == rooms[i] && rooms[i..][1..] == rooms[i + 1..];
    if q.Some? && rooms[i] != session.roomId {
      assert MayTryRooms(blocks, rooms[i..], session, c, index, used, q);
    } else {
      forall r | MayTryRooms(blocks, rooms[i + 1..], session, c, index, used, r)
        ensures MayTryRooms(blocks, rooms, session, c, index, used, r) {
        assert MayTryRooms(blocks, rooms[i..], session, c, index, used, r);
      }
    }
  }

  lemma RoomsStart(blocks: seq<seq<int>>, rooms: seq<int>, session: SessionData, c: Candidate, index: ConflictIndex,
                   used: set<int>)
    ensures RoomsInVain(blocks, rooms, 0, session, c, index, used)
    ensures RoomsInVain(blocks, rooms, |rooms|, session, c, index, used) ==>
      MayTryRooms(blocks, rooms, session, c, index, used, None)
  {
    hide MayTry;
    assert rooms[0..] == rooms && rooms[|rooms|..] == [];
    assert MayTryRooms(blocks, [], session, c, index, used, None);
  }

  /** The other allowed rooms in a random order. */
  method TryOtherRooms(blocks: seq<seq<int>>, session: SessionData, c: Candidate, index: ConflictIndex, used: set<int>)
    returns (r: Option<SessionData>, ghost order: seq<int>)
    requires NoDup(c.lecturerPool)
    ensures Reordered(order, c.possibleRoomIds) && MayTryRooms(blocks, order, session, c, index, used, r)
    ensures r.Some? ==> r.value.roomId in c.possibleRoomIds && Found(r.value, blocks, session, c, index, used)
    ensures r.None? ==> forall room, b ::
      room in c.possibleRoomIds && room != session.roomId && b in blocks ==>
      NoWay(b, room, session.lecturerIds, c, index, used)
  {
    hide Found, NoWay, MayTry, MayTryRooms, RoomsInVain;
    var rooms := FisherYatesShuffle(c.possibleRoomIds);
    order := rooms;
    SameMultiset(rooms, c.possibleRoomIds);
    RoomsStart(blocks, rooms, session, c, index, used);
    for i := 0 to |rooms|
      invariant RoomsInVain(blocks, rooms, i, session, c, index, used)
      invariant forall j, b :: 0 <= j < i && rooms[j] != session.roomId && b in blocks ==>
        NoWay(b, rooms[j], session.lecturerIds, c, index, used)
    {
      r := None;
      if rooms[i] != session.roomId { r := TryRoom(blocks, rooms[i], session, c, index, used); }
      RoomTried(blocks, rooms, i, session, c, index, used, r);
      if r.Some? {
        assert rooms[i] in Elements(c.possibleRoomIds);
        return;
      }
    }
    forall room, b | room in c.possibleRoomIds && room != session.roomId && b in blocks
      ensures NoWay(b, room, session.lecturerIds, c, index, used) {
      assert room in Elements(rooms);
    }
    r := None;
  }

  /** The current room first, then, for a flexible gene, the other allowed rooms in a random order. */
  method SearchPlacement(blocks: seq<seq<int>>, session: SessionData, c: Candidate, kind: Kind, index: ConflictIndex,
                         used: set<int>)
    returns (r: Option<SessionData>)
    requires NoDup(c.lecturerPool)
    ensures MaySearch(blocks, session, c, kind, index, used, r)
    ensures r.Some? ==>
      AllowedRoom(c, kind, session.roomId, r.value.roomId) && Found(r.value, blocks, session, c, index, used)
    ensures r.None? ==> forall room, b :: AllowedRoom(c, kind, session.roomId, room) && b in blocks ==>
      NoWay(b, room, session.lecturerIds, c, index, used)
  {
    hide Found, NoWay, MayTry, MayTryRooms, Reordered;
    r := TryRoom(blocks, session.roomId, session, c, index, used);
    if r.Some? { return; }
    ghost var order := [];
    if kind == FLEXIBLE && |c.possibleRoomIds| > 0 {
      r, order := TryOtherRooms(blocks, session, c, index, used);
    }
    if kind == FLEXIBLE && |c.possibleRoomIds| == 0 { NoRoomsToTry(blocks, session, c, index, used); }
  }

  lemma NoRoomsToTry(blocks: seq<seq<int>>, session: SessionData, c: Candidate, index: ConflictIndex, used: set<int>)
    requires c.possibleRoomIds == []
    ensures Reordered([], c.possibleRoomIds) && MayTryRooms(blocks, [], session, c, index, used, None)
  {
  }

  /** No clean placement: the given block stays in the current room, with a lecturer swap if one suits. */
  method LastResort(block: seq<int>, session: SessionData, c: Candidate, index: ConflictIndex) returns (r: SessionData)
    requires NoDup(c.lecturerPool)
    ensures MayResort(block, session, c, index, r)
    ensures r.roomId == session.roomId && r.timeSlotIds == block && LecturerStep(c, session.lecturerIds, r.lecturerIds)
  {
    hide MaySwap, PoolChoice;
    var swap := PickLecturerSwapForBlock(block, c, session.lecturerIds, index);
    r := SessionData(session.roomId, block, if swap.Some? then swap.value else session.lecturerIds);
  }

  lemma StepKeepsLecturersOk(c: Candidate, k: nat, current: seq<int>, ls: seq<int>)
    requires CandidateOk(c) && LecturersOk(c, k, current) && LecturerStep(c, current, ls)
    ensures LecturersOk(c, k, ls)
  {
    hide CandidateOk, LecturersOk, PoolChoice;
    if ls != current { SwapKeepsLecturersOk(c, k, current, ls); }
  }

  lemma RoomStaysOk(c: Candidate, kind: Kind, current: int, room: int)
    requires CandidateOk(c) && RoomOk(c, current) && kind == (if c.isFixedRoom then FIXED else FLEXIBLE)
    requires AllowedRoom(c, kind, current, room)
    ensures RoomOk(c, room)
  {
  }

  /** No allowed room takes any full contiguous block. */
  ghost predicate Hopeless(c: Candidate, lookup: SlotLookup, kind: Kind, session: SessionData, index: ConflictIndex,
                           used: set<int>) {
    forall room, b ::
      AllowedRoom(c, kind, session.roomId, room) && b in Blocks(c.possibleTimeSlotIds, c.sessionDuration, lookup) ==>
      NoWay(b, room, session.lecturerIds, c, index, used)
  }

  /** Neither the slots that the session is left with nor any full block can be used in any allowed room. */
  ghost predicate Exhausted(c: Candidate, lookup: SlotLookup, kind: Kind, session: SessionData, slots: seq<int>,
                            index: ConflictIndex, used: set<int>) {
    && (forall room :: AllowedRoom(c, kind, session.roomId, room) ==>
         NoWay(slots, room, session.lecturerIds, c, index, used))
    && Hopeless(c, lookup, kind, session, index, used)
  }

  /** One of the pool's lecturers can take some allowed room and full block without any clash. */
  ghost predicate PlacementExists(c: Candidate, lookup: SlotLookup, kind: Kind, session: SessionData,
                                  index: ConflictIndex, used: set<int>) {
    exists room, b, l :: AllowedRoom(c, kind, session.roomId, room) &&
      b in Blocks(c.possibleTimeSlotIds, c.sessionDuration, lookup)
      && l in c.lecturerPool && Clean(SessionData(room, b, [l]), index, used)
  }

  lemma HopelessForOneLecturer(c: Candidate, lookup: SlotLookup, kind: Kind, session: SessionData, index: ConflictIndex,
                               used: set<int>)
    requires Hopeless(c, lookup, kind, session, index, used) && |session.lecturerIds| == 1
    ensures !PlacementExists(c, lookup, kind, session, index, used)
  {
    hide RoomOrGeneSlotConflicts, LecturerConflicts, Blocks;
    forall room, b, l | AllowedRoom(c, kind, session.roomId, room) &&
      b in Blocks(c.possibleTimeSlotIds, c.sessionDuration, lookup)
      && l in c.lecturerPool ensures !Clean(SessionData(room, b, [l]), index, used)
    {
      assert NoWay(b, room, session.lecturerIds, c, index, used);
    }
  }

  lemma CleanResultIsPlacement(c: Candidate, lookup: SlotLookup, kind: Kind, session: SessionData, index: ConflictIndex,
                               used: set<int>, k: nat, r: SessionData)
    requires CandidateOk(c) && SessionOk(c, lookup, k, session) && SessionOk(c, lookup, k, r) &&
      |session.lecturerIds| == 1
    requires Blocks(c.possibleTimeSlotIds, c.sessionDuration, lookup) != []
    requires AllowedRoom(c, kind, session.roomId, r.roomId) && Clean(r, index, used)
    ensures PlacementExists(c, lookup, kind, session, index, used)
  {
    hide RoomOrGeneSlotConflicts, LecturerConflicts, Blocks, CandidateOk, LecturersOk, OneDay, MostSlots;
    LecturerCountFixed(c, k, session.lecturerIds);
    LecturerCountFixed(c, k, r.lecturerIds);
    var l, b := r.lecturerIds[0], r.timeSlotIds;
    assert l in r.lecturerIds && r == SessionData(r.roomId, b, [l]);
    assert b in Blocks(c.possibleTimeSlotIds, c.sessionDuration, lookup) && l in c.lecturerPool;
  }

  /** Keep a clean session; else swap lecturers in place; else search block and room; else accept the collision.
      The result is legal for the candidate and clean unless the last resort was reached. The last resort is
      reached only when no allowed room admits the current lecturers, neither in any full block nor in the slots
      that are left; for a single lecturer with a full block, exactly when no room, block and lecturer of the pool
      fit at all. */
  method RepairSessionAsBlock(session: Session, c: Candidate, kind: Kind, index: ConflictIndex, lookup: SlotLookup,
                              used: set<int>, ghost k: nat)
    returns (r: Session, ghost lastResort: bool)
    requires LookupOk(lookup) && CandidateOk(c) && SessionOk(c, lookup, k, session.Data())
    requires kind == if c.isFixedRoom then FIXED else FLEXIBLE
    ensures r == session || fresh(r)
    ensures MayRepair(c, lookup, kind, session.Data(), index, used, r.Data(), lastResort)
    ensures SessionOk(c, lookup, k, r.Data())
    ensures AllowedRoom(c, kind, session.roomId, r.roomId) && LecturerStep(c, session.lecturerIds, r.lecturerIds)
    ensures !lastResort ==> Clean(r.Data(), index, used)
    ensures lastResort ==> Exhausted(c, lookup, kind, session.Data(), r.timeSlotIds, index, used)
    ensures Clean(session.Data(), index, used) && |session.timeSlotIds| == c.sessionDuration ==>
      r == session && !lastResort
    ensures Blocks(c.possibleTimeSlotIds, c.sessionDuration, lookup) != [] && |session.lecturerIds| == 1 ==>
      (lastResort <==> !PlacementExists(c, lookup, kind, session.Data(), index, used))
  {
    ghost var s := session.Data();
    var value, kept;
    value, kept, lastResort := PlaceSession(session.Data(), c, kind, index, lookup, used, k);
    if Blocks(c.possibleTimeSlotIds, c.sessionDuration, lookup) != [] && |session.lecturerIds| == 1 {
      if lastResort {
        HopelessForOneLecturer(c, lookup, kind, s, index, used);
      } else {
        CleanResultIsPlacement(c, lookup, kind, s, index, used, k, value);
      }
    }
    hide *;
    if kept { return session, lastResort; }
    r := new Session(value);
  }

  method PlaceSession(session: SessionData, c: Candidate, kind: Kind, index: ConflictIndex, lookup: SlotLookup,
                      used: set<int>, ghost k: nat)
    returns (r: SessionData, kept: bool, ghost lastResort: bool)
    requires LookupOk(lookup) && CandidateOk(c) && SessionOk(c, lookup, k, session)
    requires kind == if c.isFixedRoom then FIXED else FLEXIBLE
    ensures MayRepair(c, lookup, kind, session, index, used, r, lastResort)
    ensures SessionOk(c, lookup, k, r) && (kept ==> r == session)
    ensures AllowedRoom(c, kind, session.roomId, r.roomId) && LecturerStep(c, session.lecturerIds, r.lecturerIds)
    ensures !lastResort ==> Clean(r, index, used)
    ensures lastResort ==> Exhausted(c, lookup, kind, session, r.timeSlotIds, index, used)
    ensures Clean(session, index, used) && |session.timeSlotIds| == c.sessionDuration ==> kept && !lastResort
  {
    hide CandidateOk, RoomOk, LecturersOk, SlotsOk, PoolChoice, NoDup, LookupOk, RoomOrGeneSlotConflicts,
         LecturerConflicts, MaySwap, MayMove, Exhausted;
    assert NoDup(c.lecturerPool) && NoDup(c.possibleTimeSlotIds) by { CandidateLists(c); }
    var currentRoomOrGeneSlotConflict := RoomOrGeneSlotConflicts(session.timeSlotIds, session.roomId, index, used);
    var currentLecturerConflict := LecturerConflicts(session.timeSlotIds, session.lecturerIds, index);
    var currentClean := !currentRoomOrGeneSlotConflict && !currentLecturerConflict;
    if currentClean && |session.timeSlotIds| == c.sessionDuration {
      return session, true, false;
    }
    if |session.timeSlotIds| == c.sessionDuration && currentLecturerConflict && !currentRoomOrGeneSlotConflict {
      var swap := PickLecturerSwapForBlock(session.timeSlotIds, c, session.lecturerIds, index);
      if swap.Some? {
        StepKeepsLecturersOk(c, k, session.lecturerIds, swap.value);
        return SessionData(session.roomId, session.timeSlotIds, swap.value), false, false;
      }
    }
    r, kept, lastResort := MoveSessionElsewhere(session, c, kind, index, lookup, used, k);
  }

  /** The search for another block and room, and the last resort. */
  method MoveSessionElsewhere(session: SessionData, c: Candidate, kind: Kind, index: ConflictIndex, lookup: SlotLookup,
                              used: set<int>, ghost k: nat)
    returns (r: SessionData, kept: bool, ghost lastResort: bool)
    requires LookupOk(lookup) && CandidateOk(c) && SessionOk(c, lookup, k, session)
    requires kind == if c.isFixedRoom then FIXED else FLEXIBLE
    ensures MayMove(c, lookup, kind, session, index, used, r, lastResort)
    ensures SessionOk(c, lookup, k, r) && (kept ==> r == session)
    ensures AllowedRoom(c, kind, session.roomId, r.roomId) && LecturerStep(c, session.lecturerIds, r.lecturerIds)
    ensures !lastResort ==> Clean(r, index, used)
    ensures lastResort ==> Exhausted(c, lookup, kind, session, r.timeSlotIds, index, used)
  {
    CandidateLists(c);
    hide *;
    kept := false;
    var blocks := FindContiguousSlots(c.possibleTimeSlotIds, c.sessionDuration, lookup);
    if |blocks| == 0 {
      var fallbackBlock := PickSameDaySessionSlots(c.possibleTimeSlotIds, c.sessionDuration, lookup);
      if |fallbackBlock| == 0 {
        NothingPicked(c, lookup, kind, session, k, index, used, fallbackBlock);
        return session, true, false;
      }
      r, lastResort := MoveInto([fallbackBlock], session, c, kind, index, used);
      MovedByPick(c, lookup, kind, session, index, used, fallbackBlock, r, lastResort);
      MovedIsOk(c, lookup, kind, session, k, r);
    } else {
      var shuffledBlocks := FisherYatesShuffle(blocks);
      BlocksReordered(blocks, shuffledBlocks);
      r, lastResort := MoveInto(shuffledBlocks, session, c, kind, index, used);
      BlockIsPick(r.timeSlotIds, c.possibleTimeSlotIds, c.sessionDuration, lookup);
      MovedByOrder(c, lookup, kind, session, index, used, shuffledBlocks, r, lastResort);
      MovedIsOk(c, lookup, kind, session, k, r);
    }
  }

  lemma NothingPicked(c: Candidate, lookup: SlotLookup, kind: Kind, session: SessionData, k: nat, index: ConflictIndex,
                      used: set<int>, pick: seq<int>)
    requires CandidateOk(c) && SessionOk(c, lookup, k, session) && pick == []
    requires Blocks(c.possibleTimeSlotIds, c.sessionDuration, lookup) == []
    requires SameDayPick(pick, c.possibleTimeSlotIds, c.sessionDuration, lookup)
    ensures Clean(session, index, used) && MayMove(c, lookup, kind, session, index, used, session, false)
    ensures AllowedRoom(c, kind, session.roomId, session.roomId)
    ensures LecturerStep(c, session.lecturerIds, session.lecturerIds)
  {
    NoSlotsIsClean(c, lookup, session, pick, index, used);
    hide Blocks, SameDayPick, MayMoveInto, Clean, CandidateOk, SessionOk;
  }

  lemma MovedByPick(c: Candidate, lookup: SlotLookup, kind: Kind, session: SessionData, index: ConflictIndex,
                    used: set<int>, pick: seq<int>, r: SessionData, lastResort: bool)
    requires Blocks(c.possibleTimeSlotIds, c.sessionDuration, lookup) == [] && pick != []
    requires SameDayPick(pick, c.possibleTimeSlotIds, c.sessionDuration, lookup) && r.timeSlotIds in [pick]
    requires MayMoveInto([pick], session, c, kind, index, used, r, lastResort)
    requires lastResort ==> forall room, b :: AllowedRoom(c, kind, session.roomId, room) && b in [pick] ==>
      NoWay(b, room, session.lecturerIds, c, index, used)
    ensures MayMove(c, lookup, kind, session, index, used, r, lastResort) && SlotsOk(c, lookup, r.timeSlotIds)
    ensures lastResort ==> Exhausted(c, lookup, kind, session, r.timeSlotIds, index, used)
  {
    hide Blocks, SameDayPick, MayMoveInto, NoWay, AllowedRoom;
    assert pick in [pick] && r.timeSlotIds == pick;
  }

  lemma MovedByOrder(c: Candidate, lookup: SlotLookup, kind: Kind, session: SessionData, index: ConflictIndex,
                     used: set<int>, order: seq<seq<int>>, r: SessionData, lastResort: bool)
    requires var blocks := Blocks(c.possibleTimeSlotIds, c.sessionDuration, lookup);
      blocks != [] && Reordered(order, blocks) && order != [] && forall b :: b in blocks <==> b in order
    requires MayMoveInto(order, session, c, kind, index, used, r, lastResort) && r.timeSlotIds in order
    requires lastResort ==> forall room, b :: AllowedRoom(c, kind, session.roomId, room) && b in order ==>
      NoWay(b, room, session.lecturerIds, c, index, used)
    ensures MayMove(c, lookup, kind, session, index, used, r, lastResort)
    ensures lastResort ==> Exhausted(c, lookup, kind, session, r.timeSlotIds, index, used)
  {
    hide Blocks, MayMoveInto, NoWay, AllowedRoom, Reordered;
  }

  lemma MovedIsOk(c: Candidate, lookup: SlotLookup, kind: Kind, session: SessionData, k: nat, r: SessionData)
    requires CandidateOk(c) && SessionOk(c, lookup, k, session) && kind == (if c.isFixedRoom then FIXED else FLEXIBLE)
    requires AllowedRoom(c, kind, session.roomId, r.roomId) && LecturerStep(c, session.lecturerIds, r.lecturerIds)
    requires SlotsOk(c, lookup, r.timeSlotIds)
    ensures SessionOk(c, lookup, k, r)
  {
    hide CandidateOk, RoomOk, LecturersOk, SlotsOk, AllowedRoom, LecturerStep;
    StepKeepsLecturersOk(c, k, session.lecturerIds, r.lecturerIds);
    RoomStaysOk(c, kind, session.roomId, r.roomId);
  }

  lemma BlocksReordered(blocks: seq<seq<int>>, shuffled: seq<seq<int>>)
    requires multiset(shuffled) == multiset(blocks) && blocks != []
    ensures Reordered(shuffled, blocks) && shuffled != [] && forall b :: b in blocks <==> b in shuffled
  {
    SameMultiset(blocks, shuffled);
    forall b ensures b in blocks <==> b in shuffled {
      assert b in Elements(blocks) <==> b in Elements(shuffled);
    }
  }

  /** A clean placement in one of the blocks, or the first block as the last resort. */
  method MoveInto(blocks: seq<seq<int>>, session: SessionData, c: Candidate, kind: Kind, index: ConflictIndex,
                  used: set<int>)
    returns (r: SessionData, ghost lastResort: bool)
    requires NoDup(c.lecturerPool) && blocks != []
    ensures MayMoveInto(blocks, session, c, kind, index, used, r, lastResort) && r.timeSlotIds in blocks
    ensures AllowedRoom(c, kind, session.roomId, r.roomId) && LecturerStep(c, session.lecturerIds, r.lecturerIds)
    ensures !lastResort ==> Clean(r, index, used)
    ensures lastResort ==> forall room, b :: AllowedRoom(c, kind, session.roomId, room) && b in blocks ==>
      NoWay(b, room, session.lecturerIds, c, index, used)
  {
    hide NoWay, LecturerStep, Clean, MaySearch, MayResort, PoolChoice;
    var placed := SearchPlacement(blocks, session, c, kind, index, used);
    if placed.Some? {
      r, lastResort := placed.value, false;
    } else {
      r := LastResort(blocks[0], session, c, index);
      lastResort := true;
    }
  }

  lemma CandidateLists(c: Candidate)
    requires CandidateOk(c)
    ensures NoDup(c.lecturerPool) && NoDup(c.possibleTimeSlotIds)
  {
  }

  /** When the selector finds nothing, a legal session holds no slot and cannot collide. */
  lemma NoSlotsIsClean(c: Candidate, lookup: SlotLookup, session: SessionData, fallback: seq<int>, index: ConflictIndex,
                       used: set<int>)
    requires SlotsOk(c, lookup, session.timeSlotIds) && SlotsOk(c, lookup, fallback) && fallback == []
    ensures Clean(session, index, used)
  {
    assert session.timeSlotIds == [];
  }
}
