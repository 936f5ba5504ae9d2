/** Sessions and genes as the search shares them by reference between generations, and their values. */
module Genes {
  import opened Prelude

  datatype Kind = FIXED | FLEXIBLE

  /** One placed session: a room, the slots it occupies there and who teaches it. */
  datatype SessionData = SessionData(roomId: int, timeSlotIds: seq<int>, lecturerIds: seq<int>)

  datatype GeneData = GeneData(kind: Kind, offeringId: int, sessions: seq<SessionData>)

  /** Only the room of a session is ever assigned in place. */
  class Session {
    var roomId: int
    const timeSlotIds: seq<int>
    const lecturerIds: seq<int>

    constructor (s: SessionData)
      ensures Data() == s
    {
      this.roomId, this.timeSlotIds, this.lecturerIds := s.roomId, s.timeSlotIds, s.lecturerIds;
    }

    function Data(): (r: SessionData)
      reads this
      ensures r == SessionData(roomId, timeSlotIds, lecturerIds)
    {
      SessionData(roomId, timeSlotIds, lecturerIds)
    }
  }

  function SessionValues(ss: seq<Session>): (r: seq<SessionData>)
    reads ss
    ensures |r| == |ss|
    ensures forall k :: 0 <= k < |r| ==> r[k] == ss[k].Data()
  {
    seq(|ss|, k requires 0 <= k < |ss| reads ss => ss[k].Data())
  }

  /** A locus of a chromosome. */
  class Gene {
    const kind: Kind
    const offeringId: int
    var sessions: seq<Session>

    constructor (kind: Kind, offeringId: int, sessions: seq<Session>)
      ensures this.kind == kind && this.offeringId == offeringId && this.sessions == sessions
    {
      this.kind, this.offeringId, this.sessions := kind, offeringId, sessions;
    }

    function Data(): (r: GeneData)
      reads this, sessions
      ensures r == GeneData(kind, offeringId, SessionValues(sessions))
    {
      GeneData(kind, offeringId, SessionValues(sessions))
    }
  }

  type Chromosome = seq<Gene>

  /** The session objects of a chromosome. */
  ghost function Objects(c: Chromosome): (r: set<Session>)
    reads c
    ensures forall i, s :: 0 <= i < |c| && s in c[i].sessions ==> s in r
  {
    set i, s | 0 <= i < |c| && s in c[i].sessions :: s
  }

  /** The session lists of a chromosome, locus by locus. */
  ghost function Parts(c: Chromosome): (r: seq<seq<Session>>)
    reads c
    ensures |r| == |c| && forall i :: 0 <= i < |c| ==> r[i] == c[i].sessions
  {
    seq(|c|, i requires 0 <= i < |c| reads c => c[i].sessions)
  }

  ghost function ObjectsIn(parts: seq<seq<Session>>): set<Session> {
    set i, s | 0 <= i < |parts| && s in parts[i] :: s
  }

  lemma ObjectsAre(c: Chromosome, parts: seq<seq<Session>>)
    requires |parts| == |c| && forall i :: 0 <= i < |c| ==> c[i].sessions == parts[i]
    ensures Objects(c) == ObjectsIn(parts)
  {
  }

  function Value(c: Chromosome): (r: seq<GeneData>)
    reads c, Objects(c)
    ensures |r| == |c|
    ensures forall i :: 0 <= i < |r| ==> r[i] == c[i].Data()
  {
    seq(|c|, i requires 0 <= i < |c| reads c, Objects(c) => c[i].Data())
  }

  /** A chromosome whose genes have the given values. */
  lemma ValueIs(c: Chromosome, v: seq<GeneData>)
    requires |v| == |c| && forall i :: 0 <= i < |c| ==> c[i].Data() == v[i]
    ensures Value(c) == v
  {
  }

  lemma PopulationIs(population: seq<Chromosome>, vals: seq<seq<GeneData>>)
    requires |population| == |vals| && forall i :: 0 <= i < |population| ==> |population[i]| == |vals[i]|
    requires forall i, j :: 0 <= i < |population| && 0 <= j < |population[i]| ==> population[i][j].Data() == vals[i][j]
    ensures forall i :: 0 <= i < |population| ==> Value(population[i]) == vals[i]
  {
    hide Value;
    forall i | 0 <= i < |population| ensures Value(population[i]) == vals[i] { ValueIs(population[i], vals[i]); }
  }

  lemma GenesAre(population: seq<Chromosome>, vals: seq<seq<GeneData>>)
    requires |population| == |vals| && forall i :: 0 <= i < |population| ==> Value(population[i]) == vals[i]
    ensures forall i :: 0 <= i < |population| ==> |population[i]| == |vals[i]|
    ensures forall i, j :: 0 <= i < |population| && 0 <= j < |population[i]| ==> population[i][j].Data() == vals[i][j]
  {
    hide Value;
    forall i, j | 0 <= i < |population| && 0 <= j < |population[i]| ensures population[i][j].Data() == vals[i][j] {
      assert Value(population[i])[j] == population[i][j].Data();
    }
  }

  lemma ObjectsSnoc(c: Chromosome, g: Gene)
    ensures Objects(c + [g]) == Objects(c) + Elements(g.sessions)
    ensures forall s :: s in Objects(c + [g]) <==> s in Objects(c) || s in g.sessions
  {
    var r := c + [g];
    forall s ensures s in Objects(r) <==> s in Objects(c) + Elements(g.sessions) {
      if s in Objects(c) {
        var i :| 0 <= i < |c| && s in c[i].sessions;
        assert s in r[i].sessions;
      }
      if s in g.sessions { assert s in r[|c|].sessions; }
    }
  }

  /** No gene object and no session object occurs twice. */
  ghost predicate Separate(c: Chromosome)
    reads c
  {
    && NoDup(c)
    && (forall i :: 0 <= i < |c| ==> NoDup(c[i].sessions))
    && (forall i, j, s :: 0 <= i < j < |c| && s in c[i].sessions ==> s !in c[j].sessions)
  }

  /** New, pairwise different session objects with the given values. */
  method NewSessions(values: seq<SessionData>) returns (r: seq<Session>)
    ensures fresh(r) && NoDup(r) && SessionValues(r) == values
  {
    r := [];
    for k := 0 to |values|
      invariant |r| == k && fresh(r) && NoDup(r)
      invariant forall j :: 0 <= j < k ==> r[j].Data() == values[j]
    {
      var s := new Session(values[k]);
      NoDupSnoc(r, s);
      r := r + [s];
    }
  }

  /** sessions.map(s => ({ roomId, timeSlotIds: [...], lecturerIds: [...] })) */
  method CloneSessions(ss: seq<Session>) returns (r: seq<Session>)
    ensures fresh(r) && NoDup(r) && SessionValues(r) == old(SessionValues(ss))
  {
    r := NewSessions(SessionValues(ss));
  }

  method CloneGene(g: Gene) returns (r: Gene)
    ensures fresh(r) && fresh(r.sessions) && NoDup(r.sessions) && r.Data() == old(g.Data())
  {
    var sessions := CloneSessions(g.sessions);
    r := new Gene(g.kind, g.offeringId, sessions);
  }

  /** chromosome.map(cloneGene): the same values in new, pairwise different genes and sessions. */
  method CloneChromosome(c: Chromosome) returns (r: Chromosome)
    ensures Value(r) == old(Value(c))
    ensures fresh(r) && fresh(Objects(r)) && Separate(r)
  {
    ghost var v := Value(c);
    r := [];
    for i := 0 to |c|
      invariant |r| == i && fresh(r) && fresh(Objects(r)) && Separate(r)
      invariant forall j :: 0 <= j < |c| ==> c[j].Data() == v[j]
      invariant forall j :: 0 <= j < i ==> r[j].Data() == v[j]
    {
      var g := CloneGene(c[i]);
      SeparateSnoc(r, g);
      r := r + [g];
    }
  }

  lemma SeparateSnoc(c: Chromosome, g: Gene)
    requires Separate(c) && g !in c && NoDup(g.sessions) && forall s :: s in g.sessions ==> s !in Objects(c)
    ensures Separate(c + [g]) && Objects(c + [g]) == Objects(c) + Elements(g.sessions)
  {
    NoDupSnoc(c, g);
    ObjectsSnoc(c, g);
  }
}
