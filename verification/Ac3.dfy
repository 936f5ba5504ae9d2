/** AC-3 pruning of block-start domains before the matching runs. */
module Ac3 {
  import opened Prelude
  import opened Bipartite

  datatype AC3Result = Consistent | Inconsistent(emptyDomainSessionId: int, emptyDomainOfferingId: int)

  // ---------------------------------------------------------------- the constraint network

  predicate IsSiblingSessionPair(a: SessionNode, b: SessionNode) {
    a.offeringId == b.offeringId && a.sessionIndex != b.sessionIndex
  }

  predicate ShareRoom(a: SessionNode, b: SessionNode) {
    a.roomId.Some? && b.roomId.Some? && a.roomId == b.roomId
  }

  predicate ShareLecturer(a: SessionNode, b: SessionNode) {
    exists l :: l in a.lecturerIds && l in b.lecturerIds
  }

  /** A shared concrete room, or a shared lecturer of two different offerings' sessions. */
  predicate Constrained(a: SessionNode, b: SessionNode) {
    ShareRoom(a, b) || (!IsSiblingSessionPair(a, b) && ShareLecturer(a, b))
  }

  ghost predicate Arc(nodes: seq<SessionNode>, x: int, y: int) {
    x != y && exists a, b :: a in nodes && b in nodes && a.sessionId == x && b.sessionId == y && Constrained(a, b)
  }

  /** The only value left for y is still a value of x. */
  ghost predicate Blocked(d: Domains, x: int, y: int) {
    x in d && y in d && exists v :: v in d[x] && d[y] == {v}
  }

  /** e keeps at least one value wherever d has one, and every value of e has a partner across every arc. */
  ghost predicate Supported(nodes: seq<SessionNode>, e: Domains, d: Domains) {
    && e.Keys == d.Keys
    && (forall s :: s in d ==> e[s] <= d[s] && (d[s] != {} ==> e[s] != {}))
    && (forall x, y :: Arc(nodes, x, y) ==> !Blocked(e, x, y))
  }

  ghost predicate Inside(e: Domains, d: Domains) {
    forall s :: s in e ==> s in d && e[s] <= d[s]
  }

  /** a gives every session a slot of its own domain, and two constrained sessions different slots. */
  ghost predicate Respects(nodes: seq<SessionNode>, a: map<int, int>, d: Domains) {
    && a.Keys == d.Keys
    && (forall s :: s in a ==> a[s] in d[s])
    && (forall x, y :: Arc(nodes, x, y) && x in a && y in a ==> a[x] != a[y])
  }

  ghost function Singletons(a: map<int, int>): Domains {
    map s | s in a :: {a[s]}
  }

  lemma RespectingIsSupported(nodes: seq<SessionNode>, a: map<int, int>, d: Domains)
    requires Respects(nodes, a, d)
    ensures Supported(nodes, Singletons(a), d)
  {
    var e := Singletons(a);
    forall x, y, v | Arc(nodes, x, y) && x in e && y in e && v in e[x] ensures e[y] != {v} {
      assert a[x] == v && a[y] in e[y];
    }
  }

  lemma FullChoiceRespects(nodes: seq<SessionNode>, c: map<int, int>, d: Domains)
    requires IsFullChoice(c, d)
    ensures Respects(nodes, c, d)
  {
  }

  // ---------------------------------------------------------------- what every revision keeps

  ghost predicate SameSizeMatching(m: map<int, int>, d: Domains) {
    exists m' :: IsMatching(m', d) && |m'| == |m|
  }

  /** The state of the worklist loop: d0 the input domains, d the current ones, w the pending arcs. */
  ghost predicate Pruning(nodes: seq<SessionNode>, d0: Domains, d: Domains, w: set<(int, int)>) {
    && d.Keys == d0.Keys
    && (forall s :: s in d ==> d[s] <= d0[s] && (d0[s] != {} ==> d[s] != {}))
    && (forall x, y :: (x, y) in w ==> x != y)
    && (forall x, y :: Arc(nodes, x, y) && Blocked(d, x, y) ==> (x, y) in w)
    && (forall e :: Supported(nodes, e, d0) ==> Inside(e, d))
    && (forall m :: IsMatching(m, d0) ==> SameSizeMatching(m, d))
  }

  /** The values of x that y excludes. */
  function Excluded(di: set<int>, dj: set<int>): set<int> {
    if |dj| == 1 then di * dj else {}
  }

  lemma SingleValue(s: set<int>, v: int)
    requires |s| == 1 && v in s
    ensures s == {v}
  {
    assert |s - {v}| == 0;
  }

  /** A supported restriction never uses an excluded value. */
  lemma ReviseKeepsSupported(nodes: seq<SessionNode>, d0: Domains, d: Domains, x: int, y: int, e: Domains)
    requires Arc(nodes, x, y) && x in d && y in d && d.Keys == d0.Keys
    requires forall s :: s in d ==> d[s] <= d0[s]
    requires Supported(nodes, e, d0) && Inside(e, d)
    ensures Inside(e, d[x := d[x] - Excluded(d[x], d[y])])
  {
    assert d[y] != {} ==> e[y] != {};
    forall v | v in e[x] ensures v !in Excluded(d[x], d[y]) {
      if |d[y]| == 1 && v in d[y] {
        SingleValue(d[y], v);
      }
    }
  }

  /** Exchange: a matching that used the excluded value at x can use it at y instead. */
  lemma ReviseKeepsMatchings(d: Domains, x: int, y: int, m: map<int, int>)
    requires x in d && y in d && x != y
    requires IsMatching(m, d)
    ensures SameSizeMatching(m, d[x := d[x] - Excluded(d[x], d[y])])
  {
    var d' := d[x := d[x] - Excluded(d[x], d[y])];
    if x in m && m[x] in Excluded(d[x], d[y]) {
      SingleValue(d[y], m[x]);
      var rest := m - {x};
      var m' := rest[y := m[x]];
      assert y !in m;
      assert rest.Keys == m.Keys - {x} && m'.Keys == rest.Keys + {y};
      assert |m.Keys| == |m| && |m'.Keys| == |m'|;
      assert |m'.Keys| == |m.Keys|;
      forall s | s in m' ensures s in d' && m'[s] in d'[s] {
      }
      assert IsMatching(m', d');
    } else {
      assert IsMatching(m, d');
    }
  }

  lemma ExcludedUnblocks(d: Domains, x: int, y: int)
    requires x in d && y in d && x != y
    ensures !Blocked(d[x := d[x] - Excluded(d[x], d[y])], x, y)
    ensures Excluded(d[x], d[y]) == {} ==> !Blocked(d, x, y)
    ensures Excluded(d[x], d[y]) != {} ==> d[x] != {} && d[x] - Excluded(d[x], d[y]) < d[x]
  {
    forall v | v in d[x] && d[y] == {v} ensures v in Excluded(d[x], d[y]) {
    }
  }

  /** The arcs that point at x: those the program puts back on the worklist when x lost a value. */
  ghost predicate ArcsInto(nodes: seq<SessionNode>, x: int, back: set<(int, int)>) {
    && (forall k :: Arc(nodes, k, x) ==> (k, x) in back)
    && (forall a, b :: (a, b) in back ==> a != b)
  }

  lemma PruningFacts(nodes: seq<SessionNode>, d0: Domains, d: Domains, w: set<(int, int)>, x: int, y: int)
    requires Pruning(nodes, d0, d, w) && (x, y) in w
    ensures x != y && d.Keys == d0.Keys
    ensures x in d ==> d[x] <= d0[x]
    ensures x in d && y in d ==> Excluded(d[x], d[y]) <= d[x]
  {
  }

  lemma ReviseNothing(nodes: seq<SessionNode>, d0: Domains, d: Domains, w: set<(int, int)>, w': set<(int, int)>, x: int,
                      y: int)
    requires Pruning(nodes, d0, d, w) && w == w' + {(x, y)}
    requires Arc(nodes, x, y) ==> x in d && y in d && Excluded(d[x], d[y]) == {}
    ensures Pruning(nodes, d0, d, w')
  {
    assert (x, y) in w;
    if Arc(nodes, x, y) { ExcludedUnblocks(d, x, y); }
  }

  lemma ReviseShrinks(nodes: seq<SessionNode>, d0: Domains, d: Domains, w: set<(int, int)>, w': set<(int, int)>, x: int,
                      y: int, back: set<(int, int)>)
    requires x in d && y in d && Arc(nodes, x, y) && Pruning(nodes, d0, d, w) && w == w' + {(x, y)}
    requires Excluded(d[x], d[y]) != {} && d[x] - Excluded(d[x], d[y]) != {}
    requires ArcsInto(nodes, x, back)
    ensures Pruning(nodes, d0, d[x := d[x] - Excluded(d[x], d[y])], w' + back)
  {
    assert (x, y) in w;
    var d' := d[x := d[x] - Excluded(d[x], d[y])];
    forall a, b | Arc(nodes, a, b) && Blocked(d', a, b) ensures (a, b) in w' + back {
      if b != x {
        ShrinkBlocks(d, d', x, y, a, b);
        ExcludedUnblocks(d, x, y);
      }
    }
    forall e | Supported(nodes, e, d0) ensures Inside(e, d') {
      ReviseKeepsSupported(nodes, d0, d, x, y, e);
    }
    forall m | IsMatching(m, d0) ensures SameSizeMatching(m, d') {
      var m1 :| IsMatching(m1, d) && |m1| == |m|;
      ReviseKeepsMatchings(d, x, y, m1);
    }
  }

  lemma ShrinkBlocks(d: Domains, d': Domains, x: int, y: int, a: int, b: int)
    requires x in d && y in d && d' == d[x := d[x] - Excluded(d[x], d[y])]
    requires Blocked(d', a, b) && b != x
    ensures Blocked(d, a, b)
  {
    var v :| v in d'[a] && d'[b] == {v};
    assert v in d[a] && d[b] == {v};
  }

  lemma ReviseEmpties(nodes: seq<SessionNode>, d0: Domains, d: Domains, w: set<(int, int)>, x: int, y: int)
    requires x in d && y in d && Arc(nodes, x, y) && Pruning(nodes, d0, d, w)
    requires Excluded(d[x], d[y]) != {} && d[x] - Excluded(d[x], d[y]) == {}
    ensures !exists e :: Supported(nodes, e, d0)
  {
    if e :| Supported(nodes, e, d0) {
      ReviseKeepsSupported(nodes, d0, d, x, y, e);
    }
  }

  lemma PruningStart(nodes: seq<SessionNode>, d0: Domains, w: set<(int, int)>)
    requires forall x, y :: Arc(nodes, x, y) <==> (x, y) in w
    requires forall x, y :: (x, y) in w ==> x != y
    ensures Pruning(nodes, d0, d0, w)
  {
    forall m | IsMatching(m, d0) ensures SameSizeMatching(m, d0) {
    }
  }

  /** An empty worklist: the domains are the greatest supported restriction. */
  lemma PruningEnd(nodes: seq<SessionNode>, d0: Domains, d: Domains)
    requires Pruning(nodes, d0, d, {})
    ensures Supported(nodes, d, d0)
    ensures forall e :: Supported(nodes, e, d0) ==> Inside(e, d)
    ensures forall m :: IsMatching(m, d0) ==> SameSizeMatching(m, d)
  {
  }

  // ---------------------------------------------------------------- resource indexes

  type Index = map<int, seq<SessionNode>>

  function Group(index: Index, k: int): seq<SessionNode> { if k in index then index[k] else [] }

  /** roomToSessions: the sessions with a concrete room, in input order. */
  function InRoom(nodes: seq<SessionNode>, room: int): (r: seq<SessionNode>)
    ensures forall n :: n in r <==> n in nodes && n.roomId == Some(room)
  {
    if nodes == [] then []
    else
      var last := nodes[|nodes| - 1];
      InRoom(nodes[..|nodes| - 1], room) + (if last.roomId == Some(room) then [last] else [])
  }

  function WithLecturer(nodes: seq<SessionNode>, l: int): (r: seq<SessionNode>)
    ensures forall n :: n in r <==> n in nodes && l in n.lecturerIds
  {
    if nodes == [] then []
    else
      var last := nodes[|nodes| - 1];
      WithLecturer(nodes[..|nodes| - 1], l) + (if l in last.lecturerIds then [last] else [])
  }

  lemma {:induction false} GroupsNoDup(nodes: seq<SessionNode>, k: int)
    requires NoDup(nodes)
    ensures NoDup(InRoom(nodes, k)) && NoDup(WithLecturer(nodes, k))
  {
    if nodes != [] {
      var front, last := nodes[..|nodes| - 1], nodes[|nodes| - 1];
      GroupsNoDup(front, k);
      assert last !in front;
    }
  }

  lemma InRoomSnoc(nodes: seq<SessionNode>, i: nat)
    requires i < |nodes|
    ensures forall k :: InRoom(nodes[..i + 1], k)
                     == InRoom(nodes[..i], k) + if nodes[i].roomId == Some(k) then [nodes[i]] else []
  {
    assert nodes[..i + 1][..i] == nodes[..i];
  }

  method BuildRoomIndex(nodes: seq<SessionNode>) returns (roomToSessions: Index)
    ensures forall k :: Group(roomToSessions, k) == InRoom(nodes, k)
  {
    roomToSessions := map[];
    for i := 0 to |nodes|
      invariant forall k :: Group(roomToSessions, k) == InRoom(nodes[..i], k)
    {
      var session := nodes[i];
      InRoomSnoc(nodes, i);
      hide InRoom;
      if session.roomId.Some? {
        var r := session.roomId.value;
        roomToSessions := roomToSessions[r := Group(roomToSessions, r) + [session]];
      }
    }
    assert nodes[..|nodes|] == nodes;
  }

  method BuildLecturerIndex(nodes: seq<SessionNode>) returns (lecturerToSessions: Index)
    requires forall n :: n in nodes ==> NoDup(n.lecturerIds)
    ensures forall k :: Group(lecturerToSessions, k) == WithLecturer(nodes, k)
  {
    lecturerToSessions := map[];
    for i := 0 to |nodes|
      invariant forall k :: Group(lecturerToSessions, k) == WithLecturer(nodes[..i], k)
    {
      var session := nodes[i];
      lecturerToSessions := AddLecturers(lecturerToSessions, session);
      assert nodes[..i + 1][..i] == nodes[..i];
      assert forall k :: WithLecturer(nodes[..i + 1], k)
                      == WithLecturer(nodes[..i], k) + if k in session.lecturerIds then [session] else [];
    }
    assert nodes[..|nodes|] == nodes;
  }

  method AddLecturers(index: Index, session: SessionNode) returns (r: Index)
    requires NoDup(session.lecturerIds)
    ensures forall k :: Group(r, k) == Group(index, k) + if k in session.lecturerIds then [session] else []
  {
    r := index;
    var ids := session.lecturerIds;
    for j := 0 to |ids|
      invariant forall k :: Group(r, k) == Group(index, k) + if k in ids[..j] then [session] else []
    {
      assert ids[j] !in ids[..j];
      assert ids[..j + 1] == ids[..j] + [ids[j]];
      r := r[ids[j] := Group(r, ids[j]) + [session]];
    }
    assert ids[..|ids|] == ids;
  }

  // ---------------------------------------------------------------- the initial worklist

  /** The ordered id pairs of two different members of a group, siblings left out when they are exempt. */
  ghost function PairsOf(group: seq<SessionNode>, exemptSiblings: bool): set<(int, int)> {
    set a, b | a in group && b in group && a != b && !(exemptSiblings && IsSiblingSessionPair(a, b))
      :: (a.sessionId, b.sessionId)
  }

  /** added holds the pairs of the worklist, and none is listed twice. */
  ghost predicate Once(worklist: seq<(int, int)>, added: set<(int, int)>) {
    NoDup(worklist) && added == Elements(worklist)
  }

  lemma NothingAdded()
    ensures Once([], {})
  {
  }

  /** addPair: append a pair unless it was added before. */
  method AddPair(worklist: seq<(int, int)>, added: set<(int, int)>, p: (int, int))
    returns (worklist': seq<(int, int)>, added': set<(int, int)>)
    requires Once(worklist, added)
    ensures Once(worklist', added') && added' == added + {p}
  {
    if p !in added {
      NoDupSnoc(worklist, p);
      ElementsSnoc(worklist, p);
      worklist', added' := worklist + [p], added + {p};
    } else {
      worklist', added' := worklist, added;
    }
  }

  predicate Paired(group: seq<SessionNode>, exemptSiblings: bool, p: int, q: int) {
    0 <= p < q < |group| && !(exemptSiblings && IsSiblingSessionPair(group[p], group[q]))
  }

  /** Index pairs (p, q) with p < i, or p == i and q < j, in both directions. */
  ghost function PairsUpTo(group: seq<SessionNode>, exemptSiblings: bool, i: int, j: int): set<(int, int)> {
    (set p, q | 0 <= p < |group| && 0 <= q < |group| && Paired(group, exemptSiblings, p, q) &&
      (p < i || (p == i && q < j))
      :: (group[p].sessionId, group[q].sessionId)) +
    (set p, q | 0 <= p < |group| && 0 <= q < |group| && Paired(group, exemptSiblings, p, q) &&
      (p < i || (p == i && q < j))
      :: (group[q].sessionId, group[p].sessionId))
  }

  lemma PairsUpToStep(group: seq<SessionNode>, exemptSiblings: bool, i: nat, j: nat)
    requires i < j < |group|
    ensures PairsUpTo(group, exemptSiblings, i, j + 1) == PairsUpTo(group, exemptSiblings, i, j) +
      if Paired(group, exemptSiblings, i, j)
      then {(group[i].sessionId, group[j].sessionId), (group[j].sessionId, group[i].sessionId)} else {}
  {
  }

  lemma PairsUpToBounds(group: seq<SessionNode>, exemptSiblings: bool, i: nat)
    ensures PairsUpTo(group, exemptSiblings, 0, 0) == {}
    ensures i < |group| ==> PairsUpTo(group, exemptSiblings, i, i + 1) == PairsUpTo(group, exemptSiblings, i, i)
    ensures PairsUpTo(group, exemptSiblings, i, |group|) == PairsUpTo(group, exemptSiblings, i + 1, i + 1)
  {
  }

  lemma PairsUpToAll(group: seq<SessionNode>, exemptSiblings: bool)
    requires NoDup(group)
    ensures PairsUpTo(group, exemptSiblings, |group|, |group|) == PairsOf(group, exemptSiblings)
  {
    var n := |group|;
    forall a, b | a in group && b in group && a != b && !(exemptSiblings && IsSiblingSessionPair(a, b))
      ensures (a.sessionId, b.sessionId) in PairsUpTo(group, exemptSiblings, n, n)
    {
      PairCovered(group, exemptSiblings, a, b);
    }
    forall p, q | 0 <= p < n && 0 <= q < n && Paired(group, exemptSiblings, p, q)
      ensures (group[p].sessionId, group[q].sessionId) in PairsOf(group, exemptSiblings)
      ensures (group[q].sessionId, group[p].sessionId) in PairsOf(group, exemptSiblings)
    {
      PairListed(group, exemptSiblings, p, q);
    }
  }

  lemma PairCovered(group: seq<SessionNode>, exemptSiblings: bool, a: SessionNode, b: SessionNode)
    requires a in group && b in group && a != b && !(exemptSiblings && IsSiblingSessionPair(a, b))
    ensures (a.sessionId, b.sessionId) in PairsUpTo(group, exemptSiblings, |group|, |group|)
  {
    var p :| 0 <= p < |group| && group[p] == a;
    var q :| 0 <= q < |group| && group[q] == b;
    assert Paired(group, exemptSiblings, p, q) || Paired(group, exemptSiblings, q, p);
  }

  lemma PairListed(group: seq<SessionNode>, exemptSiblings: bool, p: nat, q: nat)
    requires NoDup(group) && q < |group| && Paired(group, exemptSiblings, p, q)
    ensures (group[p].sessionId, group[q].sessionId) in PairsOf(group, exemptSiblings)
    ensures (group[q].sessionId, group[p].sessionId) in PairsOf(group, exemptSiblings)
  {
    assert group[p] in group && group[q] in group && group[p] != group[q];
  }

  /** The double loop over one room's or one lecturer's sessions. */
  method AddGroup(group: seq<SessionNode>, exemptSiblings: bool, worklist: seq<(int, int)>, added: set<(int, int)>)
    returns (worklist': seq<(int, int)>, added': set<(int, int)>)
    requires NoDup(group) && Once(worklist, added)
    ensures Once(worklist', added') && added' == added + PairsOf(group, exemptSiblings)
  {
    hide PairsUpTo, PairsOf, Once;
    worklist', added' := worklist, added;
    PairsUpToBounds(group, exemptSiblings, 0);
    for i := 0 to |group|
      invariant Once(worklist', added') && added' == added + PairsUpTo(group, exemptSiblings, i, i)
    {
      PairsUpToBounds(group, exemptSiblings, i);
      for j := i + 1 to |group|
        invariant Once(worklist', added') && added' == added + PairsUpTo(group, exemptSiblings, i, j)
      {
        PairsUpToStep(group, exemptSiblings, i, j);
        if !(exemptSiblings && IsSiblingSessionPair(group[i], group[j])) {
          var x, y := group[i].sessionId, group[j].sessionId;
          worklist', added' := AddPair(worklist', added', (x, y));
          worklist', added' := AddPair(worklist', added', (y, x));
        }
      }
    }
    PairsUpToAll(group, exemptSiblings);
  }

  ghost predicate InSomeGroup(index: Index, keys: set<int>, exemptSiblings: bool, p: (int, int)) {
    exists k :: k in keys && p in PairsOf(Group(index, k), exemptSiblings)
  }

  method AddGroups(index: Index, exemptSiblings: bool, worklist: seq<(int, int)>, added: set<(int, int)>)
    returns (worklist': seq<(int, int)>, added': set<(int, int)>)
    requires Once(worklist, added)
    requires forall k :: k in index ==> NoDup(index[k])
    ensures Once(worklist', added')
    ensures forall p :: p in added' <==> p in added || InSomeGroup(index, index.Keys, exemptSiblings, p)
  {
    hide PairsOf, Once;
    worklist', added' := worklist, added;
    var todo := index.Keys;
    while todo != {}
      invariant Once(worklist', added') && todo <= index.Keys
      invariant forall p :: p in added' <==> p in added || InSomeGroup(index, index.Keys - todo, exemptSiblings, p)
    {
      var k := NextOf(todo);
      ghost var before := index.Keys - todo;
      worklist', added' := AddGroup(index[k], exemptSiblings, worklist', added');
      todo := todo - {k};
      assert index.Keys - todo == before + {k};
      assert Group(index, k) == index[k];
    }
    assert index.Keys - {} == index.Keys;
  }

  lemma IdsNoDup(nodes: seq<SessionNode>)
    requires NoDup(IdsOf(nodes))
    ensures NoDup(nodes)
    ensures forall a, b :: a in nodes && b in nodes && a.sessionId == b.sessionId ==> a == b
  {
    assert forall i :: 0 <= i < |nodes| ==> IdsOf(nodes)[i] == nodes[i].sessionId;
  }

  lemma ArcIsGrouped(nodes: seq<SessionNode>, rooms: Index, lecturers: Index, x: int, y: int)
    requires forall k :: Group(rooms, k) == InRoom(nodes, k)
    requires forall k :: Group(lecturers, k) == WithLecturer(nodes, k)
    requires Arc(nodes, x, y)
    ensures InSomeGroup(rooms, rooms.Keys, false, (x, y)) || InSomeGroup(lecturers, lecturers.Keys, true, (x, y))
  {
    var a, b :| a in nodes && b in nodes && a.sessionId == x && b.sessionId == y && Constrained(a, b);
    if ShareRoom(a, b) {
      var k := a.roomId.value;
      assert a in InRoom(nodes, k) && b in InRoom(nodes, k);
      MembersGrouped(rooms, k, false, a, b);
    } else {
      var k :| k in a.lecturerIds && k in b.lecturerIds;
      assert a in WithLecturer(nodes, k) && b in WithLecturer(nodes, k);
      MembersGrouped(lecturers, k, true, a, b);
    }
  }

  lemma MembersGrouped(index: Index, k: int, exemptSiblings: bool, a: SessionNode, b: SessionNode)
    requires a in Group(index, k) && b in Group(index, k) && a.sessionId != b.sessionId
    requires !(exemptSiblings && IsSiblingSessionPair(a, b))
    ensures InSomeGroup(index, index.Keys, exemptSiblings, (a.sessionId, b.sessionId))
  {
    assert (a.sessionId, b.sessionId) in PairsOf(Group(index, k), exemptSiblings);
  }

  /** A group whose members are pairwise constrained, siblings aside, contributes only arcs. */
  lemma GroupedIsArc(nodes: seq<SessionNode>, group: seq<SessionNode>, exemptSiblings: bool, x: int, y: int)
    requires forall a, b :: a in nodes && b in nodes && a.sessionId == b.sessionId ==> a == b
    requires forall n :: n in group ==> n in nodes
    requires forall a, b :: a in group && b in group && !(exemptSiblings && IsSiblingSessionPair(a, b)) ==>
      Constrained(a, b)
    requires (x, y) in PairsOf(group, exemptSiblings)
    ensures Arc(nodes, x, y)
  {
    var a, b :| a in group && b in group && a != b && !(exemptSiblings && IsSiblingSessionPair(a, b))
                && (x, y) == (a.sessionId, b.sessionId);
    assert Constrained(a, b);
  }

  lemma RoomPairIsArc(nodes: seq<SessionNode>, room: int, x: int, y: int)
    requires NoDup(IdsOf(nodes)) && (x, y) in PairsOf(InRoom(nodes, room), false)
    ensures Arc(nodes, x, y)
  {
    IdsNoDup(nodes);
    forall a, b | a in InRoom(nodes, room) && b in InRoom(nodes, room) ensures ShareRoom(a, b) {}
    GroupedIsArc(nodes, InRoom(nodes, room), false, x, y);
  }

  lemma LecturerPairIsArc(nodes: seq<SessionNode>, l: int, x: int, y: int)
    requires NoDup(IdsOf(nodes)) && (x, y) in PairsOf(WithLecturer(nodes, l), true)
    ensures Arc(nodes, x, y)
  {
    IdsNoDup(nodes);
    forall a, b | a in WithLecturer(nodes, l) && b in WithLecturer(nodes, l) ensures ShareLecturer(a, b) {}
    GroupedIsArc(nodes, WithLecturer(nodes, l), true, x, y);
  }

  lemma ArcsAreGroupPairs(nodes: seq<SessionNode>, rooms: Index, lecturers: Index, x: int, y: int)
    requires NoDup(IdsOf(nodes))
    requires forall k :: Group(rooms, k) == InRoom(nodes, k)
    requires forall k :: Group(lecturers, k) == WithLecturer(nodes, k)
    ensures Arc(nodes, x, y) <==>
      InSomeGroup(rooms, rooms.Keys, false, (x, y)) || InSomeGroup(lecturers, lecturers.Keys, true, (x, y))
  {
    hide PairsOf, Arc, InRoom, WithLecturer, IdsOf, NoDup;
    if Arc(nodes, x, y) {
      ArcIsGrouped(nodes, rooms, lecturers, x, y);
    }
    if InSomeGroup(rooms, rooms.Keys, false, (x, y)) {
      var k :| k in rooms.Keys && (x, y) in PairsOf(Group(rooms, k), false);
      RoomPairIsArc(nodes, k, x, y);
    }
    if InSomeGroup(lecturers, lecturers.Keys, true, (x, y)) {
      var k :| k in lecturers.Keys && (x, y) in PairsOf(Group(lecturers, k), true);
      LecturerPairIsArc(nodes, k, x, y);
    }
  }

  lemma ArcDistinct(nodes: seq<SessionNode>, x: int, y: int)
    ensures Arc(nodes, x, y) ==> x != y
  {
  }

  /** All arcs of the network, from the two indexes. */
  method BuildWorklist(nodes: seq<SessionNode>, rooms: Index, lecturers: Index) returns (worklist: seq<(int, int)>)
    requires NoDup(IdsOf(nodes))
    requires forall k :: Group(rooms, k) == InRoom(nodes, k)
    requires forall k :: Group(lecturers, k) == WithLecturer(nodes, k)
    ensures forall x, y :: Arc(nodes, x, y) <==> (x, y) in Elements(worklist)
    ensures forall x, y :: (x, y) in Elements(worklist) ==> x != y
    ensures NoDup(worklist)
  {
    hide Arc, InSomeGroup, InRoom, WithLecturer, IdsOf, NoDup;
    IdsNoDup(nodes);
    forall k ensures NoDup(Group(rooms, k)) && NoDup(Group(lecturers, k)) {
      GroupsNoDup(nodes, k);
    }
    assert forall k :: k in rooms ==> Group(rooms, k) == rooms[k];
    assert forall k :: k in lecturers ==> Group(lecturers, k) == lecturers[k];
    var added: set<(int, int)> := {};
    worklist := [];
    NothingAdded();
    worklist, added := AddGroups(rooms, false, worklist, added);
    worklist, added := AddGroups(lecturers, true, worklist, added);
    forall x, y ensures (Arc(nodes, x, y) <==> (x, y) in added) && (Arc(nodes, x, y) ==> x != y) {
      ArcDistinct(nodes, x, y);
      ArcsAreGroupPairs(nodes, rooms, lecturers, x, y);
    }
  }

  // ---------------------------------------------------------------- the worklist loop

  function SessionMap(nodes: seq<SessionNode>): (m: map<int, SessionNode>)
    ensures m.Keys == Elements(IdsOf(nodes))
    ensures forall k :: k in m ==> m[k] in nodes && m[k].sessionId == k
  {
    if nodes == [] then map[]
    else
      var front, last := nodes[..|nodes| - 1], nodes[|nodes| - 1];
      assert IdsOf(nodes) == IdsOf(front) + [last.sessionId];
      SessionMap(front)[last.sessionId := last]
  }

  /** The slots of domainI that the only slot of domainJ rules out. */
  method FindInconsistent(domainI: set<int>, domainJ: set<int>) returns (toRemove: set<int>)
    ensures toRemove == Excluded(domainI, domainJ)
  {
    toRemove := {};
    var todo := domainI;
    while todo != {}
      invariant todo <= domainI
      invariant toRemove == Excluded(domainI - todo, domainJ)
    {
      var slot := NextOf(todo);
      var hasConsistentValue := |domainJ| > 1 || (|domainJ| == 1 && slot !in domainJ);
      if !hasConsistentValue {
        if |domainJ| == 1 && slot in domainJ {
          toRemove := toRemove + {slot};
        }
      }
      todo := todo - {slot};
    }
    assert domainI - {} == domainI;
  }

  /** The pairs pushed back for one group of related sessions. */
  function ArcsFrom(group: seq<SessionNode>, me: SessionNode, exemptSiblings: bool): (r: seq<(int, int)>)
    ensures forall p :: p in r ==> p.1 == me.sessionId && p.0 != me.sessionId
    ensures forall n :: n in group && n.sessionId != me.sessionId ==>
      (exemptSiblings && IsSiblingSessionPair(me, n)) || (n.sessionId, me.sessionId) in r
  {
    if group == [] then []
    else
      var first := group[0];
      (if first.sessionId != me.sessionId && !(exemptSiblings && IsSiblingSessionPair(me, first))
       then [(first.sessionId, me.sessionId)] else [])
      + ArcsFrom(group[1..], me, exemptSiblings)
  }

  function ArcsByLecturer(ids: seq<int>, lecturers: Index, me: SessionNode): (r: seq<(int, int)>)
    ensures forall p :: p in r ==> p.1 == me.sessionId && p.0 != me.sessionId
  {
    if ids == [] then []
    else ArcsFrom(Group(lecturers, ids[0]), me, true) + ArcsByLecturer(ids[1..], lecturers, me)
  }

  function RelatedArcs(me: SessionNode, rooms: Index, lecturers: Index): seq<(int, int)> {
    (if me.roomId.Some? then ArcsFrom(Group(rooms, me.roomId.value), me, false) else [])
    + ArcsByLecturer(me.lecturerIds, lecturers, me)
  }

  lemma ArcByNodes(nodes: seq<SessionNode>, a: SessionNode, b: SessionNode)
    requires NoDup(IdsOf(nodes)) && a in nodes && b in nodes
    ensures Arc(nodes, a.sessionId, b.sessionId) <==> a.sessionId != b.sessionId && Constrained(a, b)
  {
    IdsNoDup(nodes);
  }

  lemma ArcEnd(nodes: seq<SessionNode>, k: int, y: int) returns (a: SessionNode)
    requires Arc(nodes, k, y)
    ensures a in nodes && a.sessionId == k
  {
    var a', b :| a' in nodes && b in nodes && a'.sessionId == k && b.sessionId == y && Constrained(a', b);
    a := a';
  }

  lemma RelatedArcsComplete(nodes: seq<SessionNode>, me: SessionNode, rooms: Index, lecturers: Index)
    requires NoDup(IdsOf(nodes)) && me in nodes
    requires forall k :: Group(rooms, k) == InRoom(nodes, k)
    requires forall k :: Group(lecturers, k) == WithLecturer(nodes, k)
    ensures ArcsInto(nodes, me.sessionId, Elements(RelatedArcs(me, rooms, lecturers)))
  {
    hide Arc, IdsOf, NoDup, RelatedArcs, Group, InRoom, WithLecturer, Constrained;
    RelatedArcsPointAt(me, rooms, lecturers);
    forall k | Arc(nodes, k, me.sessionId) ensures (k, me.sessionId) in RelatedArcs(me, rooms, lecturers) {
      var a := ArcEnd(nodes, k, me.sessionId);
      ArcByNodes(nodes, a, me);
      RelatedArcListed(nodes, me, a, rooms, lecturers);
    }
  }

  lemma RelatedArcsPointAt(me: SessionNode, rooms: Index, lecturers: Index)
    ensures forall p :: p in RelatedArcs(me, rooms, lecturers) ==> p.0 != p.1
  {
    hide ArcsFrom, ArcsByLecturer, Group;
  }

  lemma RelatedArcListed(nodes: seq<SessionNode>, me: SessionNode, a: SessionNode, rooms: Index, lecturers: Index)
    requires a in nodes && a.sessionId != me.sessionId && Constrained(a, me)
    requires forall k :: Group(rooms, k) == InRoom(nodes, k)
    requires forall k :: Group(lecturers, k) == WithLecturer(nodes, k)
    ensures (a.sessionId, me.sessionId) in RelatedArcs(me, rooms, lecturers)
  {
    hide InRoom, WithLecturer, ArcsFrom, ArcsByLecturer, Group;
    var byLecturer := ArcsByLecturer(me.lecturerIds, lecturers, me);
    if ShareRoom(a, me) {
      var group := Group(rooms, me.roomId.value);
      assert a in group;
      assert (a.sessionId, me.sessionId) in ArcsFrom(group, me, false);
    } else {
      var l :| l in a.lecturerIds && l in me.lecturerIds;
      assert a in Group(lecturers, l);
      ArcByLecturerListed(me.lecturerIds, lecturers, me, l, a);
    }
  }

  lemma {:induction false} ArcByLecturerListed(ids: seq<int>, lecturers: Index, me: SessionNode, l: int, a: SessionNode)
    requires l in ids && a in Group(lecturers, l)
    requires a.sessionId != me.sessionId && !IsSiblingSessionPair(me, a)
    ensures (a.sessionId, me.sessionId) in ArcsByLecturer(ids, lecturers, me)
  {
    if l != ids[0] {
      ArcByLecturerListed(ids[1..], lecturers, me, l, a);
    }
  }

  ghost function Edges(d: Domains): set<(int, int)> {
    set s, t | s in d.Keys && t in d[s] :: (s, t)
  }

  lemma EdgesShrink(d: Domains, x: int, removed: set<int>)
    requires x in d && removed != {} && removed <= d[x]
    ensures Edges(d[x := d[x] - removed]) < Edges(d)
  {
    var d' := d[x := d[x] - removed];
    var v := Member(removed);
    assert (x, v) in Edges(d) && (x, v) !in Edges(d');
  }

  /** One popped pair: the slots to delete from xi's domain, none when the pair has no constraint. */
  method Revise(nodes: seq<SessionNode>, sessionMap: map<int, SessionNode>, d: Domains, xi: int, xj: int)
    returns (toRemove: set<int>)
    requires NoDup(IdsOf(nodes)) && sessionMap == SessionMap(nodes) && d.Keys == sessionMap.Keys && xi != xj
    ensures toRemove != {} ==> xi in d && xj in d && Arc(nodes, xi, xj) && toRemove == Excluded(d[xi], d[xj])
    ensures toRemove == {} && Arc(nodes, xi, xj) ==> xi in d && xj in d && Excluded(d[xi], d[xj]) == {}
  {
    hide Arc, IdsOf, NoDup, Excluded;
    if xi !in d || xj !in d {
      ArcKeys(nodes, xi, xj);
      return {};
    }
    var sessionI, sessionJ := sessionMap[xi], sessionMap[xj];
    ArcByNodes(nodes, sessionI, sessionJ);
    var shareRoom := ShareRoom(sessionI, sessionJ);
    var enforceLecturerConstraint := !IsSiblingSessionPair(sessionI, sessionJ);
    var hasConstraint := shareRoom || (enforceLecturerConstraint && ShareLecturer(sessionI, sessionJ));
    if !hasConstraint {
      return {};
    }
    toRemove := FindInconsistent(d[xi], d[xj]);
  }

  lemma ArcKeys(nodes: seq<SessionNode>, x: int, y: int)
    ensures Arc(nodes, x, y) ==> x in IdsOf(nodes) && y in IdsOf(nodes)
  {
    if Arc(nodes, x, y) {
      var a, b :| a in nodes && b in nodes && a.sessionId == x && b.sessionId == y && Constrained(a, b);
      NodeIdListed(nodes, a);
      NodeIdListed(nodes, b);
    }
  }

  lemma NodeIdListed(nodes: seq<SessionNode>, a: SessionNode)
    requires a in nodes
    ensures a.sessionId in IdsOf(nodes)
  {
    var i :| 0 <= i < |nodes| && nodes[i] == a;
    assert IdsOf(nodes)[i] == a.sessionId;
  }

  /** Prunes graph.adjacency to the greatest supported restriction, or reports a session that lost its last slot.
      Consistent exactly when a supported restriction exists, and no matching gets smaller by the pruning. */
  method RunAC3(graph: BipartiteGraph) returns (r: AC3Result)
    requires GraphOk(graph.sessions, graph.adjacency)
    modifies graph
    ensures r.Consistent? <==> exists e :: Supported(graph.sessions, e, old(graph.adjacency))
    ensures r.Consistent? ==> Supported(graph.sessions, graph.adjacency, old(graph.adjacency))
    ensures r.Consistent? ==> forall e :: Supported(graph.sessions, e, old(graph.adjacency)) ==>
      Inside(e, graph.adjacency)
    ensures r.Consistent? ==> forall m :: IsMatching(m, old(graph.adjacency)) ==> SameSizeMatching(m, graph.adjacency)
    ensures r.Inconsistent? ==>
      var s := r.emptyDomainSessionId;
      s in graph.adjacency && graph.adjacency[s] == {} && s in old(graph.adjacency) && old(graph.adjacency)[s] != {}
    ensures r.Inconsistent? ==>
      exists n :: n in graph.sessions && n.sessionId == r.emptyDomainSessionId &&
        n.offeringId == r.emptyDomainOfferingId
  {
    hide ArcsInto, Edges, NoDup, RelatedArcs, Pruning, Arc, Supported, Inside, SameSizeMatching, Excluded, IsMatching,
         InRoom, WithLecturer, Group, IdsOf, SessionMap;
    var nodes := graph.sessions;
    var rooms := BuildRoomIndex(nodes);
    var lecturers := BuildLecturerIndex(nodes);
    var worklist := BuildWorklist(nodes, rooms, lecturers);
    var sessionMap := SessionMap(nodes);
    ghost var d0 := graph.adjacency;
    PruningStart(nodes, d0, Elements(worklist));
    while worklist != []
      invariant Pruning(nodes, d0, graph.adjacency, Elements(worklist))
      decreases Edges(graph.adjacency), |worklist|
    {
      ghost var w, d := Elements(worklist), graph.adjacency;
      var (xi, xj) := worklist[|worklist| - 1];
      worklist := worklist[..|worklist| - 1];
      assert w == Elements(worklist) + {(xi, xj)};
      PruningFacts(nodes, d0, d, w, xi, xj);
      var toRemove := Revise(nodes, sessionMap, graph.adjacency, xi, xj);
      if toRemove == {} {
        ReviseNothing(nodes, d0, d, w, Elements(worklist), xi, xj);
      } else {
        EdgesShrink(d, xi, toRemove);
        graph.adjacency := graph.adjacency[xi := graph.adjacency[xi] - toRemove];
        if graph.adjacency[xi] == {} {
          ReviseEmpties(nodes, d0, d, w, xi, xj);
          return Inconsistent(xi, sessionMap[xi].offeringId);
        }
        var back := RelatedArcs(sessionMap[xi], rooms, lecturers);
        RelatedArcsComplete(nodes, sessionMap[xi], rooms, lecturers);
        ReviseShrinks(nodes, d0, d, w, Elements(worklist), xi, xj, Elements(back));
        assert Elements(worklist + back) == Elements(worklist) + Elements(back);
        worklist := worklist + back;
      }
    }
    assert Elements(worklist) == {};
    PruningEnd(nodes, d0, graph.adjacency);
    return Consistent;
  }
}
