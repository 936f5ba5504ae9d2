/** Maximum bipartite matching by layered augmenting paths. */
module HopcroftKarp {
  import opened Prelude
  import opened Bipartite

  /** A BFS layer, or not reached. */
  datatype Dist = Inf | Fin(n: nat)

  datatype MatchingResult = MatchingResult(
    maximumMatching: nat,
    sessionToSlot: map<int, int>,
    slotToSession: map<int, int>,
    unmatchedSessions: seq<int>)

  /** The pairs of a session-to-slot map without its -1 entries. */
  ghost function MatchedPart(sessionToSlot: map<int, int>): map<int, int> {
    map s | s in sessionToSlot && sessionToSlot[s] != -1 :: sessionToSlot[s]
  }

  /** dist.get(s), with a missing entry read as unreached */
  function Layer(dist: map<int, Dist>, s: int): Dist { if s in dist then dist[s] else Inf }

  ghost function Unreached(dist: map<int, Dist>): set<int> { set s | s in dist && dist[s] == Inf }

  function AllSlots(d: Domains): set<int> { set s, t | s in d.Keys && t in d[s] :: t }

  /** A snapshot of the graph and the two match maps. */
  datatype Matching = Matching(adjacency: Domains, matchL: map<int, int>, matchR: map<int, int>) {

    /** adjacency.get(s) ?? empty */
    function Adj(s: int): set<int> { if s in adjacency then adjacency[s] else {} }

    function Mate(s: int): int { if s in matchL then matchL[s] else -1 }

    /** matchR.get(t) ?? -1 */
    function Partner(t: int): int { if t in matchR then matchR[t] else -1 }

    ghost function MatchedSessions(): set<int> { set s | s in matchL && matchL[s] != -1 }

    ghost function MatchedSlots(): set<int> { set t | t in matchR && matchR[t] != -1 }

    /** The two maps are mutually inverse and inside adjacency, except that slot t0 may still name
        a session that has moved on to another slot. */
    ghost predicate InverseExcept(t0: int) {
      && matchL.Keys == adjacency.Keys
      && matchR.Keys == AllSlots(adjacency)
      && -1 !in adjacency && -1 !in AllSlots(adjacency)
      && (forall s :: Mate(s) != -1 ==> Mate(s) in Adj(s) && Partner(Mate(s)) == s)
      && (forall t :: Partner(t) != -1 ==> Partner(t) in matchL)
      && (forall t :: Partner(t) != -1 && t != t0 ==> Mate(Partner(t)) == t)
    }

    ghost predicate Valid() { InverseExcept(-1) }

    // ------------------------------------------------------------ layers

    /** Some session one layer above s can take s's slot. */
    ghost predicate HasParent(d: map<int, Dist>, s: int) {
      Layer(d, s).Fin? && exists p :: IsParent(d, s, p)
    }

    ghost predicate IsParent(d: map<int, Dist>, s: int, p: int) {
      Layer(d, p).Fin? && Layer(d, s) == Fin(Layer(d, p).n + 1) && Mate(s) in Adj(p)
    }

    /** Roots are on layer 0 and every other reached session has a parent. */
    ghost predicate Rooted(d: map<int, Dist>) {
      && d.Keys == matchL.Keys
      && (forall s :: s in d && Mate(s) == -1 ==> Layer(d, s) == Fin(0))
      && (forall s :: Layer(d, s).Fin? && Mate(s) != -1 ==> HasParent(d, s))
    }

    /** The partners of s's slots are reached. */
    ghost predicate Closed(d: map<int, Dist>, s: int) {
      forall t :: t in Adj(s) && Partner(t) != -1 ==> Layer(d, Partner(t)).Fin?
    }

    ghost predicate Layered(d: map<int, Dist>) {
      Rooted(d) && forall s :: Layer(d, s).Fin? ==> Closed(d, s)
    }

    ghost predicate SeesFree(s: int) {
      exists t :: t in Adj(s) && Partner(t) == -1
    }

    ghost predicate FreeSlotReached(d: map<int, Dist>) {
      exists s :: Layer(d, s).Fin? && SeesFree(s)
    }

    ghost predicate FreeSlotSeen(done: set<int>) {
      exists s :: s in done && SeesFree(s)
    }

    /** A layering under construction: seen is exactly the reached sessions, those in done are expanded. */
    ghost predicate LayersPartly(d: map<int, Dist>, seen: set<int>, done: set<int>) {
      && Rooted(d)
      && (forall s :: Layer(d, s).Fin? <==> s in seen)
      && done <= seen
      && (forall s :: s in done ==> Closed(d, s))
    }

    /** The expansion of s so far: slots in left are still to come, more are the sessions layered by it. */
    ghost predicate Expanding(d0: map<int, Dist>, d: map<int, Dist>, seen: set<int>, done: set<int>,
                              s: int, left: set<int>, more: seq<int>) {
      && left <= Adj(s)
      && Layer(d, s).Fin? && Layer(d, s) == Layer(d0, s)
      && LayersPartly(d, seen + Elements(more), done)
      && (forall t :: t in Adj(s) && t !in left && Partner(t) != -1 ==> Layer(d, Partner(t)).Fin?)
      && (more == [] ==> d == d0)
      && Unreached(d) <= Unreached(d0)
      && (forall x :: x in more ==> x in Unreached(d0))
    }

    lemma ExpandSkips(d0: map<int, Dist>, d: map<int, Dist>, seen: set<int>, done: set<int>,
                      s: int, left: set<int>, more: seq<int>, t: int)
      requires Expanding(d0, d, seen, done, s, left, more) && t in left
      requires Partner(t) == -1 || Layer(d, Partner(t)).Fin?
      ensures Expanding(d0, d, seen, done, s, left - {t}, more)
    {
    }

    /** Writing the next layer for an unreached partner keeps the layering rooted. */
    lemma ExpandLayers(d0: map<int, Dist>, d: map<int, Dist>, seen: set<int>, done: set<int>,
                       s: int, left: set<int>, more: seq<int>, t: int)
      requires Valid() && Expanding(d0, d, seen, done, s, left, more) && t in left
      requires Partner(t) != -1 && Layer(d, Partner(t)) == Inf
      ensures Expanding(d0, d[Partner(t) := Fin(Layer(d, s).n + 1)], seen, done, s, left - {t}, more + [Partner(t)])
    {
      var p, d' := Partner(t), d[Partner(t) := Fin(Layer(d, s).n + 1)];
      assert Mate(p) == t;
      DescendKeepsLayers(d, d', seen + Elements(more), done, s, p);
      assert seen + Elements(more + [p]) == seen + Elements(more) + {p};
      assert p in Unreached(d);
    }

    lemma DescendKeepsLayers(d: map<int, Dist>, d': map<int, Dist>, seen: set<int>, done: set<int>, s: int, p: int)
      requires Valid() && LayersPartly(d, seen, done) && Layer(d, s).Fin?
      requires Mate(p) != -1 && Mate(p) in Adj(s) && p in d && d[p] == Inf
      requires d' == d[p := Fin(Layer(d, s).n + 1)]
      ensures LayersPartly(d', seen + {p}, done)
    {
      OneLayerMore(d, d', Fin(Layer(d, s).n + 1), p);
      hide Matching.InverseExcept, Matching.HasParent, Matching.IsParent, Matching.Mate, Matching.Partner, Layer;
      forall x | Layer(d', x).Fin? && Mate(x) != -1 ensures HasParent(d', x) { ParentKept(d, d', s, p, x); }
    }

    lemma OneLayerMore(d: map<int, Dist>, d': map<int, Dist>, layer: Dist, p: int)
      requires p in d && d[p] == Inf && d' == d[p := layer]
      ensures d'.Keys == d.Keys && Layer(d, p) == Inf && Layer(d', p) == layer
      ensures forall x :: x != p ==> Layer(d', x) == Layer(d, x)
    {
    }

    lemma ParentKept(d: map<int, Dist>, d': map<int, Dist>, s: int, p: int, x: int)
      requires Layer(d, s).Fin? && Layer(d', p) == Fin(Layer(d, s).n + 1) && Layer(d, p) == Inf && Mate(p) in Adj(s)
      requires forall y :: y != p ==> Layer(d', y) == Layer(d, y)
      requires x != p ==> HasParent(d, x)
      ensures HasParent(d', x)
    {
      hide Layer, Matching.Mate, Matching.Adj;
      if x == p {
        assert IsParent(d', x, s);
      } else {
        var q :| IsParent(d, x, q);
        assert IsParent(d', x, q);
      }
    }

    lemma LayersFinished(d: map<int, Dist>, done: set<int>)
      requires LayersPartly(d, done, done)
      ensures Layered(d)
      ensures FreeSlotReached(d) <==> FreeSlotSeen(done)
    {
      if FreeSlotReached(d) {
        var s :| Layer(d, s).Fin? && SeesFree(s);
        assert s in done;
      }
      if FreeSlotSeen(done) {
        var s :| s in done && SeesFree(s);
        assert Layer(d, s).Fin?;
      }
    }

    lemma ExpandStart(d: map<int, Dist>, seen: set<int>, done: set<int>, s: int)
      requires Valid() && LayersPartly(d, seen, done) && s in seen
      ensures s in adjacency && s in d && d[s].Fin?
      ensures Expanding(d, d, seen, done, s, adjacency[s], [])
    {
    }

    lemma ExpandFacts(d0: map<int, Dist>, d: map<int, Dist>, seen: set<int>, done: set<int>,
                      s: int, left: set<int>, more: seq<int>, t: int)
      requires Valid() && Expanding(d0, d, seen, done, s, left, more) && t in left
      ensures t in matchR && s in d && d[s] == Layer(d0, s) && t in Adj(s)
      ensures matchR[t] != -1 ==> matchR[t] in d
    {
      assert t in AllSlots(adjacency);
      assert matchR[t] == Partner(t);
    }

    lemma ExpandDone(d0: map<int, Dist>, d: map<int, Dist>, seen: set<int>, done: set<int>, s: int, more: seq<int>)
      requires Expanding(d0, d, seen, done, s, {}, more) && s in seen
      ensures LayersPartly(d, seen + Elements(more), done + {s})
      ensures if more == [] then d == d0 else Unreached(d) < Unreached(d0)
    {
      if more != [] {
        var x := more[0];
        assert x in more && x in Elements(more);
        assert Layer(d, x).Fin? && x !in Unreached(d);
      }
    }

    // ------------------------------------------------------------ augmenting

    function Assign(s: int, t: int): Matching {
      Matching(adjacency, matchL[s := t], matchR[t := s])
    }

    /** m is this matching after a successful search from s: s has a slot, nobody lost one, exactly one more
        slot is used, only sessions below s in the layers d moved, and s's former slot still names s. */
    ghost predicate Augmented(m: Matching, d: map<int, Dist>, s: int) {
      && m.adjacency == adjacency
      && m.InverseExcept(Mate(s))
      && (Mate(s) != -1 ==> m.Partner(Mate(s)) == s)
      && m.Mate(s) != Mate(s)
      && m.MatchedSessions() == MatchedSessions() + {s}
      && (exists t :: t !in MatchedSlots() && m.MatchedSlots() == MatchedSlots() + {t})
      && (forall x :: x != s && !Below(d, x, s) ==> m.Mate(x) == Mate(x))
    }

    lemma AugmentFree(d: map<int, Dist>, s: int, t: int)
      requires Valid() && t in Adj(s) && Partner(t) == -1
      ensures Augmented(Assign(s, t), d, s)
    {
      var m := Assign(s, t);
      assert t in AllSlots(adjacency);
      assert forall x :: m.Mate(x) == if x == s then t else Mate(x);
      assert forall u :: m.Partner(u) == if u == t then s else Partner(u);
      assert t !in MatchedSlots() && m.MatchedSlots() == MatchedSlots() + {t};
      assert m.MatchedSessions() == MatchedSessions() + {s};
    }

    lemma AugmentThrough(m: Matching, d: map<int, Dist>, d': map<int, Dist>, s: int, t: int)
      requires Valid() && t in Adj(s) && Partner(t) != -1
      requires Layer(d, s).Fin? && Layer(d', Partner(t)) == Fin(Layer(d, s).n + 1) && Sunk(d, d', s)
      requires Augmented(m, d', Partner(t))
      ensures Augmented(m.Assign(s, t), d, s)
    {
      var p, m' := Partner(t), m.Assign(s, t);
      assert Layer(d, p) == Layer(d', p);
      assert Mate(p) == t && m.Partner(t) == p;
      assert m.Mate(s) == Mate(s);
      assert t in AllSlots(adjacency) && t != -1;
      assert Mate(p) != -1 && p in MatchedSessions();
      m.AssignedTo(s, t);
      hide Matching.Mate, Matching.Partner, Matching.MatchedSlots, Matching.MatchedSessions, Layer, AllSlots;
      assert m'.MatchedSessions() == MatchedSessions() + {s};
    }

    lemma AssignedTo(s: int, t: int)
      requires t != -1 && Partner(t) != -1 && s != -1
      ensures forall x :: Assign(s, t).Mate(x) == if x == s then t else Mate(x)
      ensures forall u :: Assign(s, t).Partner(u) == if u == t then s else Partner(u)
      ensures Assign(s, t).MatchedSlots() == MatchedSlots()
      ensures Assign(s, t).MatchedSessions() == MatchedSessions() + {s}
    {
    }

    // ------------------------------------------------------------ dead ends

    /** d differs from the BFS layers d0 only where a failed search wrote infinity. */
    ghost predicate Within(d0: map<int, Dist>, d: map<int, Dist>) {
      d.Keys == d0.Keys == matchL.Keys && forall s :: Layer(d, s) == Inf || Layer(d, s) == Layer(d0, s)
    }

    /** Slot t leads s nowhere: it is taken, and if its holder is one layer down, that holder was given up. */
    ghost predicate DeadSlot(d0: map<int, Dist>, d: map<int, Dist>, s: int, t: int) {
      && Partner(t) != -1
      && (Layer(d0, s).Fin? && Layer(d0, Partner(t)) == Fin(Layer(d0, s).n + 1) ==> Layer(d, Partner(t)) == Inf)
    }

    /** Every session given up since the BFS has only dead slots. */
    ghost predicate DeadEnds(d0: map<int, Dist>, d: map<int, Dist>) {
      forall s, t :: Layer(d0, s).Fin? && Layer(d, s) == Inf && t in Adj(s) ==> DeadSlot(d0, d, s, t)
    }

    /** A search from s in progress: the slots outside left were tried in vain. */
    ghost predicate Searching(d0: map<int, Dist>, d: map<int, Dist>, d': map<int, Dist>, s: int, left: set<int>) {
      && left <= Adj(s)
      && Within(d0, d') && Sunk(d, d', s)
      && Layer(d', s).Fin? && Layer(d', s) == Layer(d, s)
      && (forall t :: t in Adj(s) && t !in left ==> DeadSlot(d0, d', s, t))
      && (DeadEnds(d0, d) ==> DeadEnds(d0, d'))
    }

    lemma SearchStart(d0: map<int, Dist>, d: map<int, Dist>, s: int)
      requires Valid() && Within(d0, d) && Layer(d, s).Fin?
      ensures s in adjacency && s in d && Searching(d0, d, d, s, adjacency[s])
    {
    }

    lemma SearchFacts(d0: map<int, Dist>, d: map<int, Dist>, d': map<int, Dist>, s: int, left: set<int>, t: int)
      requires Valid() && Searching(d0, d, d', s, left) && t in left
      ensures Within(d0, d') && Sunk(d, d', s) && t in Adj(s)
      ensures t in matchR && matchR[t] == Partner(t)
      ensures s in d' && d'[s].Fin? && d'[s] == Layer(d, s)
      ensures matchR[t] != -1 ==> matchR[t] in d'
      ensures matchR[t] != -1 && d'[matchR[t]] == Fin(d'[s].n + 1) ==>
        Deeper(d', matchR[t]) < Deeper(d, s)
    {
      assert t in AllSlots(adjacency);
      var p := Partner(t);
      assert p != -1 ==> p in d';
      if p != -1 && d'[p] == Fin(d'[s].n + 1) {
        assert Layer(d, p) == d'[p];
        assert p in Deeper(d, s) && p !in Deeper(d', p);
      }
    }

    /** The slot t failed: it is not free, and its holder was on another layer or was given up just now. */
    lemma SearchFails(d0: map<int, Dist>, d: map<int, Dist>, d1: map<int, Dist>, d2: map<int, Dist>,
                      s: int, left: set<int>, t: int)
      requires Valid() && Searching(d0, d, d1, s, left) && t in left && Partner(t) != -1
      requires Within(d0, d2)
      requires if Layer(d1, Partner(t)) == Fin(Layer(d1, s).n + 1)
               then Sunk(d1, d2, Partner(t)) && Layer(d2, Partner(t)) == Inf && (DeadEnds(d0, d1) ==> DeadEnds(d0, d2))
               else d2 == d1
      ensures Searching(d0, d, d2, s, left - {t})
    {
      assert Layer(d1, s) == Layer(d0, s);
      assert Layer(d2, s) == Layer(d1, s);
      assert forall x :: Layer(d1, x) == Inf ==> Layer(d2, x) == Inf;
      assert DeadSlot(d0, d2, s, t);
      forall u | u in Adj(s) && u !in left ensures DeadSlot(d0, d2, s, u) {
        assert DeadSlot(d0, d1, s, u);
      }
      if d2 != d1 { SunkThrough(d, d1, d2, s, Partner(t)); }
    }

    lemma SearchGivesUp(d0: map<int, Dist>, d: map<int, Dist>, d': map<int, Dist>, s: int)
      requires Valid() && Searching(d0, d, d', s, {})
      ensures Within(d0, d'[s := Inf]) && Sunk(d, d'[s := Inf], s)
      ensures DeadEnds(d0, d) ==> DeadEnds(d0, d'[s := Inf])
    {
      var d2 := d'[s := Inf];
      assert forall x :: Layer(d2, x) == if x == s then Inf else Layer(d', x);
      if DeadEnds(d0, d) {
        forall x, t | Layer(d0, x).Fin? && Layer(d2, x) == Inf && t in Adj(x) ensures DeadSlot(d0, d2, x, t) {
          assert DeadSlot(d0, d', x, t);
        }
      }
    }

    /** A phase that started from this matching and the layers d0 has come to root i with the matching m and layers d:
        later roots are still on layer 0 and, as long as nothing was matched, earlier roots were given up. */
    ghost predicate PhaseSoFar(d0: map<int, Dist>, m: Matching, d: map<int, Dist>, sessions: seq<int>, i: nat) {
      && m.adjacency == adjacency
      && m.Within(d0, d)
      && MatchedSessions() <= m.MatchedSessions()
      && (forall j :: i <= j < |sessions| && m.Mate(sessions[j]) == -1 ==> Layer(d, sessions[j]) == Fin(0))
      && (m == this ==> DeadEnds(d0, d))
      && (m == this ==>
            forall j :: 0 <= j < i && j < |sessions| && Mate(sessions[j]) == -1 ==> Layer(d, sessions[j]) == Inf)
    }

    lemma KeysFacts()
      requires Valid()
      ensures matchL.Keys == adjacency.Keys
    {
    }

    lemma PhaseStart(d0: map<int, Dist>, sessions: seq<int>)
      requires Valid() && Layered(d0) && adjacency.Keys == Elements(sessions)
      ensures PhaseSoFar(d0, this, d0, sessions, 0)
    {
      forall j | 0 <= j < |sessions| && Mate(sessions[j]) == -1 ensures Layer(d0, sessions[j]) == Fin(0) {
        assert sessions[j] in d0;
      }
    }

    lemma PhaseFacts(d0: map<int, Dist>, m: Matching, d: map<int, Dist>, sessions: seq<int>, i: nat)
      requires i < |sessions| && m.Mate(sessions[i]) == -1 && PhaseSoFar(d0, m, d, sessions, i)
      ensures m.Within(d0, d) && Layer(d, sessions[i]) == Fin(0)
      ensures m == this ==> DeadEnds(d0, d)
    {
    }

    lemma PhaseSkips(d0: map<int, Dist>, m: Matching, d: map<int, Dist>, sessions: seq<int>, i: nat)
      requires i < |sessions| && m.Mate(sessions[i]) != -1 && PhaseSoFar(d0, m, d, sessions, i)
      ensures PhaseSoFar(d0, m, d, sessions, i + 1)
    {
    }

    lemma PhaseMatches(d0: map<int, Dist>, m: Matching, d: map<int, Dist>, m': Matching, d': map<int, Dist>,
                       sessions: seq<int>, i: nat)
      requires NoDup(sessions) && i < |sessions| && m.Mate(sessions[i]) == -1 && PhaseSoFar(d0, m, d, sessions, i)
      requires m.Augmented(m', d, sessions[i]) && Sunk(d, d', sessions[i]) && m.Valid()
      ensures m' != this && PhaseSoFar(d0, m', d', sessions, i + 1)
      ensures m.MatchedSessions() <= m'.MatchedSessions()
    {
      var s := sessions[i];
      assert s in m'.MatchedSessions() && s !in MatchedSessions() by {
        assert s !in m.MatchedSessions();
      }
      forall j | i < j < |sessions| && m'.Mate(sessions[j]) == -1 ensures Layer(d', sessions[j]) == Fin(0) {
        assert sessions[j] !in m'.MatchedSessions();
        assert m.Mate(sessions[j]) == -1;
      }
    }

    lemma PhaseGivesUp(d0: map<int, Dist>, m: Matching, d: map<int, Dist>, d': map<int, Dist>, sessions: seq<int>,
                       i: nat)
      requires NoDup(sessions) && i < |sessions| && PhaseSoFar(d0, m, d, sessions, i)
      requires m.Mate(sessions[i]) == -1 && Layer(d, sessions[i]) == Fin(0)
      requires m.Within(d0, d') && Sunk(d, d', sessions[i]) && Layer(d', sessions[i]) == Inf
      requires m.DeadEnds(d0, d) ==> m.DeadEnds(d0, d')
      ensures PhaseSoFar(d0, m, d', sessions, i + 1)
    {
      forall j | i < j < |sessions| && m.Mate(sessions[j]) == -1 ensures Layer(d', sessions[j]) == Fin(0) {
        assert Layer(d, sessions[j]) == Fin(0);
      }
    }

    /** Progress: a phase that matched nothing has given up every reached session, so no free slot was reached. */
    lemma PhaseEnd(d0: map<int, Dist>, m: Matching, d: map<int, Dist>, sessions: seq<int>)
      requires Valid() && Layered(d0) && adjacency.Keys == Elements(sessions)
      requires PhaseSoFar(d0, m, d, sessions, |sessions|)
      ensures MatchedSessions() <= m.MatchedSessions()
      ensures FreeSlotReached(d0) ==> m != this
    {
      if m == this && FreeSlotReached(d0) {
        var s :| Layer(d0, s).Fin? && SeesFree(s);
        forall r | r in matchL && Mate(r) == -1 ensures Layer(d, r) == Inf {
          assert r in sessions;
        }
        GivenUpAll(d0, d, s);
      }
    }

    lemma AugmentedCounts(m: Matching, d: map<int, Dist>, s: int)
      requires Valid() && Mate(s) == -1 && Augmented(m, d, s)
      ensures m.Valid()
      ensures |m.MatchedSessions()| == |MatchedSessions()| + 1
    {
      assert s !in MatchedSessions();
    }

    lemma MatchedBound()
      requires Valid()
      ensures |MatchedSessions()| <= |adjacency|
    {
      SubsetBound(MatchedSessions(), adjacency.Keys);
      assert |adjacency.Keys| == |adjacency|;
    }

    /** The matched pairs are a matching of the graph. */
    lemma MatchedPartIsMatching()
      requires Valid()
      ensures IsMatching(MatchedPart(matchL), adjacency)
      ensures MatchedPart(matchL).Keys == MatchedSessions()
    {
      var p := MatchedPart(matchL);
      forall s | s in p ensures s in adjacency && p[s] in adjacency[s] && Partner(p[s]) == s {
        assert p[s] == Mate(s);
      }
    }

    /** If every root was given up without augmenting, so was every reached session: then no free slot was reached. */
    lemma {:induction false} GivenUpAll(d0: map<int, Dist>, d: map<int, Dist>, s: int)
      requires Valid() && Rooted(d0) && Within(d0, d) && DeadEnds(d0, d)
      requires forall r :: r in matchL && Mate(r) == -1 ==> Layer(d, r) == Inf
      requires Layer(d0, s).Fin?
      ensures Layer(d, s) == Inf && !SeesFree(s)
      decreases Layer(d0, s).n
    {
      if Mate(s) != -1 {
        var p :| IsParent(d0, s, p);
        GivenUpAll(d0, d, p);
        assert DeadSlot(d0, d, p, Mate(s));
      }
      forall t | t in Adj(s) ensures Partner(t) != -1 {
        assert DeadSlot(d0, d, s, t);
      }
    }

    // ------------------------------------------------------------ optimality

    ghost function ReachedSessions(d: map<int, Dist>): set<int> {
      set s | s in adjacency && Layer(d, s).Fin?
    }

    /** The slots adjacent to a reached session. */
    ghost function CoverSlots(d: map<int, Dist>): set<int> {
      set t | t in AllSlots(adjacency) && Covered(d, t)
    }

    ghost predicate Covered(d: map<int, Dist>, t: int) {
      exists s :: s in ReachedSessions(d) && t in Adj(s)
    }

    /** No augmenting path left: the unreached sessions and the slots of the reached ones cover every edge,
        and there are only as many of them as matched sessions. */
    lemma CoverBound(d: map<int, Dist>, other: map<int, int>)
      requires Valid() && Layered(d) && !FreeSlotReached(d)
      requires IsMatching(other, adjacency)
      ensures |other| <= |MatchedSessions()|
    {
      hide *;
      var reached := ReachedSessions(d);
      SplitSize(other.Keys, reached);
      InsideBound(d, other);
      HeldSlots(d);
      OutsideBound(d, other);
      SplitSize(MatchedSessions(), reached);
      assert |other.Keys| == |other|;
    }

    lemma InsideBound(d: map<int, Dist>, other: map<int, int>)
      requires IsMatching(other, adjacency)
      ensures |other.Keys * ReachedSessions(d)| <= |CoverSlots(d)|
    {
      forall s | s in other.Keys * ReachedSessions(d) ensures other[s] in CoverSlots(d) {
        var t := other[s];
        assert s in ReachedSessions(d) && t in Adj(s);
        assert t in AllSlots(adjacency) && Covered(d, t);
      }
      InjectionBound(other.Keys * ReachedSessions(d), other, CoverSlots(d));
    }

    /** Every slot of a reached session is held by a reached, matched session. */
    lemma HeldSlots(d: map<int, Dist>)
      requires Valid() && Layered(d) && !FreeSlotReached(d)
      ensures |CoverSlots(d)| <= |MatchedSessions() * ReachedSessions(d)|
    {
      var partners := map t | t in CoverSlots(d) :: Partner(t);
      forall t | t in CoverSlots(d)
        ensures Partner(t) in MatchedSessions() * ReachedSessions(d) && Mate(Partner(t)) == t
      {
        var s :| s in ReachedSessions(d) && t in Adj(s);
        assert Closed(d, s) && !SeesFree(s);
      }
      InjectionBound(CoverSlots(d), partners, MatchedSessions() * ReachedSessions(d));
    }

    /** Every unreached session is matched. */
    lemma OutsideBound(d: map<int, Dist>, other: map<int, int>)
      requires Valid() && Layered(d) && IsMatching(other, adjacency)
      ensures |other.Keys - ReachedSessions(d)| <= |MatchedSessions() - ReachedSessions(d)|
    {
      forall s | s in other.Keys - ReachedSessions(d) ensures s in MatchedSessions() - ReachedSessions(d) {
        assert s in d && Layer(d, s) == Inf;
        assert Mate(s) != -1;
      }
      SubsetBound(other.Keys - ReachedSessions(d), MatchedSessions() - ReachedSessions(d));
    }
  }

  /** x lies on a deeper layer than s. */
  ghost predicate Below(d: map<int, Dist>, x: int, s: int) {
    Layer(d, s).Fin? && Layer(d, x).Fin? && Layer(d, x).n > Layer(d, s).n
  }

  ghost function Deeper(d: map<int, Dist>, s: int): set<int> { set x | x in d && Below(d, x, s) }

  /** From d to d', only s and sessions below it were given up. */
  ghost predicate Sunk(d: map<int, Dist>, d': map<int, Dist>, s: int) {
    d'.Keys == d.Keys &&
    forall x :: Layer(d', x) == Layer(d, x) || (Layer(d', x) == Inf && (x == s || Below(d, x, s)))
  }

  lemma SunkThrough(d: map<int, Dist>, d1: map<int, Dist>, d2: map<int, Dist>, s: int, p: int)
    requires Sunk(d, d1, s) && Layer(d1, s).Fin? && Layer(d1, s) == Layer(d, s)
    requires Layer(d1, p) == Fin(Layer(d1, s).n + 1) && Sunk(d1, d2, p)
    ensures Sunk(d, d2, s) && Layer(d2, s) == Layer(d, s)
  {
    forall x ensures Layer(d2, x) == Layer(d, x) || (Layer(d2, x) == Inf && (x == s || Below(d, x, s))) {
      if Layer(d2, x) != Layer(d1, x) { assert x == p || Below(d1, x, p); }
    }
  }

  /** The variables shared by the search's closures. -1 marks an unmatched session or slot. */
  class Matcher {
    const sessions: seq<int>
    const adjacency: Domains
    var matchL: map<int, int>
    var matchR: map<int, int>
    var dist: map<int, Dist>
    var matching: nat

    ghost function M(): Matching
      reads this
    {
      Matching(adjacency, matchL, matchR)
    }

    ghost predicate Valid()
      reads this
    {
      NoDup(sessions) && adjacency.Keys == Elements(sessions) && M().Valid()
    }

    constructor (graph: BipartiteGraph)
      requires GraphOk(graph.sessions, graph.adjacency)
      ensures Valid() && sessions == IdsOf(graph.sessions) && adjacency == graph.adjacency
      ensures matching == 0 && M().MatchedSessions() == {}
    {
      sessions := IdsOf(graph.sessions);
      adjacency := graph.adjacency;
      matchL := map s | s in graph.adjacency :: -1;
      matchR := map t | t in AllSlots(graph.adjacency) :: -1;
      dist := map[];
      matching := 0;
      new;
      forall s | s in adjacency ensures s != -1 {
        var i :| 0 <= i < |sessions| && sessions[i] == s;
        assert graph.sessions[i].sessionId == s;
      }
    }

    // ------------------------------------------------------------ breadth-first layering

    method InitLayers() returns (queue: seq<int>)
      requires Valid()
      modifies this`dist
      ensures M().LayersPartly(dist, Elements(queue), {})
    {
      queue := [];
      dist := map[];
      for i := 0 to |sessions|
        invariant dist.Keys == Elements(sessions[..i])
        invariant forall s :: s in dist ==> dist[s] == if M().Mate(s) == -1 then Fin(0) else Inf
        invariant forall s :: s in queue <==> Layer(dist, s) == Fin(0)
      {
        var s := sessions[i];
        assert sessions[..i + 1] == sessions[..i] + [s];
        if matchL[s] == -1 {
          dist := dist[s := Fin(0)];
          queue := queue + [s];
        } else {
          dist := dist[s := Inf];
        }
      }
      assert sessions[..|sessions|] == sessions;
    }

    /** Breadth-first layering; true when some reached session can take a free slot. */
    method Bfs() returns (foundAugmenting: bool)
      requires Valid()
      modifies this`dist
      ensures M().Layered(dist)
      ensures foundAugmenting <==> M().FreeSlotReached(dist)
    {
      hide Matching.LayersPartly, Matching.SeesFree, Matching.InverseExcept, Matching.Layered, Matching.FreeSlotReached;
      var queue: seq<int> := InitLayers();
      foundAugmenting := false;
      ghost var m, done: set<int> := M(), {};
      assert Elements(queue) + done == Elements(queue);
      while queue != []
        invariant m.LayersPartly(dist, Elements(queue) + done, done)
        invariant foundAugmenting <==> m.FreeSlotSeen(done)
        decreases Unreached(dist), |queue|
      {
        var sessionId, rest := queue[0], queue[1..];
        ghost var seen := Elements(queue) + done;
        assert sessionId in queue;
        var more, found := Expand(sessionId, seen, done);
        foundAugmenting := foundAugmenting || found;
        queue := rest + more;
        done := done + {sessionId};
        assert Elements(queue) + done == seen + Elements(more);
      }
      assert Elements(queue) + done == done;
      m.LayersFinished(dist, done);
    }

    /** p, unreached before, holds a slot of s and is put on the layer below it. */
    ghost predicate NewlyLayered(d0: map<int, Dist>, d: map<int, Dist>, s: int, p: int)
      reads this
    {
      && Layer(d0, s).Fin? && Layer(d0, p) == Inf && Layer(d, p) == Fin(Layer(d0, s).n + 1)
      && exists t :: t in M().Adj(s) && M().Partner(t) == p
    }

    /** One round of the BFS: put the unreached partners of sessionId's slots on the next layer. */
    method Expand(sessionId: int, ghost seen: set<int>, ghost done: set<int>) returns (more: seq<int>, found: bool)
      requires Valid() && M().LayersPartly(dist, seen, done) && sessionId in seen
      modifies this`dist
      ensures M().LayersPartly(dist, seen + Elements(more), done + {sessionId})
      ensures found <==> M().SeesFree(sessionId)
      ensures more == [] ==> dist == old(dist)
      ensures more != [] ==> Unreached(dist) < Unreached(old(dist))
      ensures forall p :: p in more ==> NewlyLayered(old(dist), dist, sessionId, p)
      ensures forall p :: Layer(dist, p) != Layer(old(dist), p) ==> p in more
    {
      hide Matching.LayersPartly, Matching.Expanding, Matching.InverseExcept;
      more := [];
      found := false;
      ghost var m, d0 := M(), dist;
      m.ExpandStart(dist, seen, done, sessionId);
      var sessionDist := dist[sessionId].n;
      var slots := adjacency[sessionId];
      while slots != {}
        invariant m.Expanding(d0, dist, seen, done, sessionId, slots, more)
        invariant found <==> exists t :: t in m.Adj(sessionId) && t !in slots && m.Partner(t) == -1
        invariant slots <= m.Adj(sessionId) && Layer(dist, sessionId) == Layer(d0, sessionId) == Fin(sessionDist)
        invariant forall p :: p in more ==> NewlyLayered(d0, dist, sessionId, p)
        invariant forall p :: Layer(dist, p) != Layer(d0, p) ==> p in more
      {
        var slotId := NextOf(slots);
        m.ExpandFacts(d0, dist, seen, done, sessionId, slots, more, slotId);
        var paired := matchR[slotId];
        if paired == -1 {
          found := true;
          m.ExpandSkips(d0, dist, seen, done, sessionId, slots, more, slotId);
        } else if dist[paired] == Inf {
          m.ExpandLayers(d0, dist, seen, done, sessionId, slots, more, slotId);
          ghost var d1 := dist;
          assert paired !in more && Layer(d0, paired) == Inf && M() == m && m.Partner(slotId) == paired;
          dist := dist[paired := Fin(sessionDist + 1)];
          assert M() == m && slotId in M().Adj(sessionId) && M().Partner(slotId) == paired;
          assert Layer(d0, sessionId) == Fin(sessionDist) && Layer(dist, paired) == Fin(sessionDist + 1);
          assert NewlyLayered(d0, dist, sessionId, paired);
          assert forall p :: p in more ==> Layer(dist, p) == Layer(d1, p);
          more := more + [paired];
        } else {
          m.ExpandSkips(d0, dist, seen, done, sessionId, slots, more, slotId);
        }
        slots := slots - {slotId};
      }
      m.ExpandDone(d0, dist, seen, done, sessionId, more);
    }

    // ------------------------------------------------------------ depth-first augmentation

    /** Augment along a layered path from sessionId, giving sessions up on the way. */
    method Dfs(sessionId: int, ghost d0: map<int, Dist>) returns (ok: bool)
      requires Valid() && M().Within(d0, dist) && Layer(dist, sessionId).Fin?
      modifies this`matchL, this`matchR, this`dist
      ensures Sunk(old(dist), dist, sessionId)
      ensures ok ==>
        old(M()).Augmented(M(), old(dist), sessionId) && Layer(dist, sessionId) == Layer(old(dist), sessionId)
      ensures !ok ==> M() == old(M()) && M().Within(d0, dist) && Layer(dist, sessionId) == Inf
      ensures !ok && old(M().DeadEnds(d0, dist)) ==> M().DeadEnds(d0, dist)
      decreases Deeper(dist, sessionId)
    {
      hide Matching.InverseExcept, Matching.Searching, Matching.Augmented, Matching.DeadEnds, Matching.Within,
           Sunk, Deeper;
      ghost var m, d := M(), dist;
      m.SearchStart(d0, dist, sessionId);
      var sessionDist := dist[sessionId].n;
      var slots := adjacency[sessionId];
      while slots != {}
        invariant M() == m
        invariant m.Searching(d0, d, dist, sessionId, slots)
      {
        var slotId := NextOf(slots);
        ghost var d1 := dist;
        m.SearchFacts(d0, d, dist, sessionId, slots, slotId);
        var paired := matchR[slotId];
        var canAugment := paired == -1;
        if !canAugment && dist[paired] == Fin(sessionDist + 1) {
          canAugment := Dfs(paired, d0);
        }
        if canAugment {
          if paired == -1 {
            m.AugmentFree(d, sessionId, slotId);
          } else {
            m.AugmentThrough(M(), d, d1, sessionId, slotId);
            SunkThrough(d, d1, dist, sessionId, paired);
          }
          matchL := matchL[sessionId := slotId];
          matchR := matchR[slotId := sessionId];
          return true;
        }
        m.SearchFails(d0, d, d1, dist, sessionId, slots, slotId);
        slots := slots - {slotId};
      }
      m.SearchGivesUp(d0, d, dist, sessionId);
      dist := dist[sessionId := Inf];
      return false;
    }

    ghost predicate Counted()
      reads this
    {
      Valid() && matching == |M().MatchedSessions()|
    }

    /** One pass over the unmatched sessions. A free slot reached by the layering guarantees progress. */
    method Phase()
      requires Counted() && M().Layered(dist)
      modifies this`matchL, this`matchR, this`dist, this`matching
      ensures Counted()
      ensures old(M().MatchedSessions()) <= M().MatchedSessions()
      ensures old(M().FreeSlotReached(dist)) ==> matching > old(matching)
    {
      hide Matching.InverseExcept, Matching.Augmented, Matching.DeadEnds, Matching.Within, Matching.PhaseSoFar,
           Matching.Layered, Matching.FreeSlotReached, Matching.MatchedSessions, Sunk;
      ghost var m0, d0 := M(), dist;
      m0.PhaseStart(dist, sessions);
      for i := 0 to |sessions|
        invariant Counted()
        invariant m0.PhaseSoFar(d0, M(), dist, sessions, i)
        invariant matching >= old(matching) && (matching == old(matching) ==> M() == m0)
      {
        ghost var m, d := M(), dist;
        assert matchL.Keys == adjacency.Keys by { m.KeysFacts(); }
        assert sessions[i] in Elements(sessions);
        if matchL[sessions[i]] == -1 {
          m0.PhaseFacts(d0, m, dist, sessions, i);
          var augmented := Dfs(sessions[i], d0);
          if augmented {
            m.AugmentedCounts(M(), d, sessions[i]);
            m0.PhaseMatches(d0, m, d, M(), dist, sessions, i);
            matching := matching + 1;
          } else {
            m0.PhaseGivesUp(d0, m, d, dist, sessions, i);
          }
        } else {
          m0.PhaseSkips(d0, m, dist, sessions, i);
        }
      }
      m0.PhaseEnd(d0, M(), dist, sessions);
    }

    /** Phases until the layering reaches no free slot; then the matching is maximum. */
    method Run()
      requires Counted()
      modifies this
      ensures Counted()
      ensures forall other :: IsMatching(other, adjacency) ==> |other| <= matching
    {
      hide Matching.InverseExcept, Matching.Layered, Matching.FreeSlotReached, Matching.MatchedSessions;
      var more := Bfs();
      while more
        invariant Counted() && M().Layered(dist)
        invariant more <==> M().FreeSlotReached(dist)
        decreases |adjacency| - matching
      {
        Phase();
        M().MatchedBound();
        more := Bfs();
      }
      forall other | IsMatching(other, adjacency) ensures |other| <= matching {
        M().CoverBound(dist, other);
      }
    }
  }

  /** sessions.filter(s => matchL.get(s) === -1) */
  function Unmatched(sessions: seq<int>, matchL: map<int, int>): (r: seq<int>)
    requires forall i :: 0 <= i < |sessions| ==> sessions[i] in matchL
    ensures forall s :: s in r <==> s in sessions && matchL[s] == -1
  {
    if sessions == [] then []
    else (if matchL[sessions[0]] == -1 then [sessions[0]] else []) + Unmatched(sessions[1..], matchL)
  }

  lemma {:induction false} UnmatchedNoDup(sessions: seq<int>, matchL: map<int, int>)
    requires forall i :: 0 <= i < |sessions| ==> sessions[i] in matchL
    requires NoDup(sessions)
    ensures NoDup(Unmatched(sessions, matchL))
  {
    if sessions != [] {
      UnmatchedNoDup(sessions[1..], matchL);
      assert sessions[0] !in sessions[1..];
    }
  }

  lemma UnmatchedExact(sessions: seq<int>, matchL: map<int, int>)
    requires matchL.Keys == Elements(sessions) && NoDup(sessions)
    ensures forall i :: 0 <= i < |sessions| ==> sessions[i] in matchL
    ensures NoDup(Unmatched(sessions, matchL))
    ensures Elements(Unmatched(sessions, matchL)) == matchL.Keys - MatchedPart(matchL).Keys
  {
    assert forall i :: 0 <= i < |sessions| ==> sessions[i] in Elements(sessions);
    UnmatchedNoDup(sessions, matchL);
  }

  /** The two result maps undo each other. */
  ghost predicate MutuallyInverse(l: map<int, int>, r: map<int, int>) {
    && (forall s :: s in l && l[s] != -1 ==> l[s] in r && r[l[s]] == s)
    && (forall t :: t in r && r[t] != -1 ==> r[t] in l && l[r[t]] == t)
  }

  lemma ValidMapsInverse(m: Matching)
    requires m.Valid()
    ensures MutuallyInverse(m.matchL, m.matchR)
  {
    forall s | s in m.matchL && m.matchL[s] != -1
      ensures m.matchL[s] in m.matchR && m.matchR[m.matchL[s]] == s
    {
      assert m.Mate(s) in m.Adj(s) && m.Partner(m.Mate(s)) == s;
      assert m.Mate(s) in AllSlots(m.adjacency);
    }
    forall t | t in m.matchR && m.matchR[t] != -1 ensures m.matchR[t] in m.matchL && m.matchL[m.matchR[t]] == t {
      assert m.Mate(m.Partner(t)) == t;
    }
  }

  /** The result is a matching of the graph, of the reported size, and no matching is larger. */
  method RunHopcroftKarp(graph: BipartiteGraph) returns (r: MatchingResult)
    requires GraphOk(graph.sessions, graph.adjacency)
    ensures r.sessionToSlot.Keys == graph.adjacency.Keys
    ensures IsMatching(MatchedPart(r.sessionToSlot), graph.adjacency)
    ensures |MatchedPart(r.sessionToSlot)| == r.maximumMatching
    ensures forall other :: IsMatching(other, graph.adjacency) ==> |other| <= r.maximumMatching
    ensures MutuallyInverse(r.sessionToSlot, r.slotToSession)
    ensures NoDup(r.unmatchedSessions)
    ensures Elements(r.unmatchedSessions) == graph.adjacency.Keys - MatchedPart(r.sessionToSlot).Keys
  {
    var k := new Matcher(graph);
    k.Run();
    ghost var m := k.M();
    hide Matching.InverseExcept, MatchedPart, Elements, NoDup, Unmatched, MutuallyInverse, IsMatching, GraphOk;
    m.KeysFacts();
    m.MatchedPartIsMatching();
    ValidMapsInverse(m);
    assert |MatchedPart(k.matchL).Keys| == |MatchedPart(k.matchL)|;
    UnmatchedExact(k.sessions, k.matchL);
    r := MatchingResult(k.matching, k.matchL, k.matchR, Unmatched(k.sessions, k.matchL));
  }
}
