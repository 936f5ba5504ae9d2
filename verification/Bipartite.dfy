/** The graph that the structural analysis works on, and what a matching of it is. */
module Bipartite {
  import opened Prelude

  /** One parallel group of an offering. A null room is a free variable, not a shared resource. */
  datatype SessionNode = SessionNode(
    sessionId: int,
    offeringId: int,
    sessionIndex: int,
    roomId: Option<int>,
    lecturerIds: seq<int>)

  /** Session id to the block starts it may take. */
  type Domains = map<int, set<int>>

  function IdsOf(nodes: seq<SessionNode>): seq<int> {
    seq(|nodes|, i requires 0 <= i < |nodes| => nodes[i].sessionId)
  }

  /** Ids are usable as map keys beside the sentinel -1, nodes have their own domains, no lecturer is listed twice. */
  ghost predicate GraphOk(nodes: seq<SessionNode>, d: Domains) {
    && NoDup(IdsOf(nodes))
    && d.Keys == Elements(IdsOf(nodes))
    && (forall i :: 0 <= i < |nodes| ==> nodes[i].sessionId >= 0 && NoDup(nodes[i].lecturerIds))
    && (forall s, t :: s in d && t in d[s] ==> t >= 0)
  }

  class BipartiteGraph {
    const sessions: seq<SessionNode>
    const slots: set<int>
    const degradedOfferings: set<int>
    var adjacency: Domains

    constructor (sessions: seq<SessionNode>, slots: set<int>, adjacency: Domains, degradedOfferings: set<int>)
      ensures this.sessions == sessions && this.slots == slots
      ensures this.adjacency == adjacency && this.degradedOfferings == degradedOfferings
    {
      this.sessions := sessions;
      this.slots := slots;
      this.adjacency := adjacency;
      this.degradedOfferings := degradedOfferings;
    }
  }

  /** m gives distinct slots to some of the sessions, each from its own domain. */
  ghost predicate IsMatching(m: map<int, int>, d: Domains) {
    && (forall s :: s in m ==> s in d && m[s] in d[s])
    && (forall s, s' :: s in m && s' in m && s != s' ==> m[s] != m[s'])
  }

  /** Every session has its own slot. */
  ghost predicate IsFullChoice(m: map<int, int>, d: Domains) {
    IsMatching(m, d) && m.Keys == d.Keys
  }

  lemma MatchingSize(m: map<int, int>, d: Domains)
    requires IsMatching(m, d)
    ensures |m| <= |d|
    ensures |m| == |d| <==> m.Keys == d.Keys
  {
    assert |m.Keys| == |m| && |d.Keys| == |d|;
    assert forall s :: s in m.Keys ==> s in d.Keys;
    SubsetBound(m.Keys, d.Keys);
    if |m| == |d| { SubsetSameSize(m.Keys, d.Keys); }
  }
}
