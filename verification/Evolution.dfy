/** The generation loop. */
module Evolution {
  import opened Prelude
  import opened Candidates
  import opened Timetable
  import opened Genes
  import opened Fitness
  import opened Penalties
  import opened WellFormed
  import opened Operators
  import opened Mutation
  import opened Repair

  /** The inputs of a run. The competency violations and the structural and preference penalties enter
      only as functions of the timetable's value. */
  datatype Problem = Problem(
    candidates: seq<Candidate>,
    lookup: SlotLookup,
    slotsInOrder: seq<TimeSlot>,
    roomById: Option<map<int, int>>,
    maxSks: map<int, int>,
    competencyMismatch: seq<GeneData> -> nat,
    otherSoftPenalty: seq<GeneData> -> nat)

  datatype Config = Config(
    populationSize: nat,
    generations: nat,
    mutationRate: real,
    elitismCount: nat,
    tournamentSize: nat,
    crossoverType: CrossoverType,
    hardPenaltyWeight: real,
    softPenaltyWeight: real)

  ghost predicate ProblemOk(p: Problem) {
    p.candidates != [] && CandidatesOk(p.candidates) && LookupOk(p.lookup) && Enumerates(p.slotsInOrder, p.lookup)
  }

  ghost predicate ConfigOk(cfg: Config) {
    cfg.populationSize > 0 && cfg.tournamentSize > 0 && cfg.hardPenaltyWeight >= 0.0 && cfg.softPenaltyWeight >= 0.0
  }

  // ---------------------------------------------------------------- evaluation

  ghost function Collisions(p: Problem, v: seq<GeneData>): nat {
    var ss := AllSessions(v, CandidateMap(p.candidates));
    RepeatsZero(AllRoomKeys(ss));
    RepeatsZero(AllLecKeys(ss));
    HardCount(ss)
  }

  ghost function HardOf(p: Problem, v: seq<GeneData>): nat {
    Collisions(p, v) + p.competencyMismatch(v)
  }

  ghost function SoftOf(p: Problem, v: seq<GeneData>): nat {
    var ss := AllSessions(v, CandidateMap(p.candidates));
    p.otherSoftPenalty(v) + LoadPenalty(ss, p.maxSks)
    + (if p.roomById.None? then 0 else TotalShortfall(v, CandidateMap(p.candidates), p.roomById.value))
    + AllGaps(p.lookup, p.slotsInOrder, ss)
  }

  ghost function FitOf(p: Problem, cfg: Config, v: seq<GeneData>): real
    requires ConfigOk(cfg)
  {
    FitnessOf(HardOf(p, v), SoftOf(p, v), cfg.hardPenaltyWeight, cfg.softPenaltyWeight)
  }

  datatype Evaluated = Evaluated(chromosome: Chromosome, fitness: real, hardViolations: nat, softPenalty: nat)

  /** e reports what the value v deserves. */
  ghost predicate Reports(p: Problem, cfg: Config, e: Evaluated, v: seq<GeneData>)
    requires ConfigOk(cfg)
  {
    e.fitness == FitOf(p, cfg, v) && e.hardViolations == HardOf(p, v) && e.softPenalty == SoftOf(p, v)
  }

  method EvaluateFitness(ch: Chromosome, p: Problem, cfg: Config, ghost v: seq<GeneData>) returns (e: Evaluated)
    requires ConfigOk(cfg) && v == Value(ch) && Enumerates(p.slotsInOrder, p.lookup)
    ensures e.chromosome == ch && Reports(p, cfg, e, v)
  {
    hide AllSessions, CandidateMap, HardCount, LoadPenalty, TotalShortfall, AllGaps;
    var value := Value(ch);
    var collisionViolations := EvaluateHardFitness(value, p.candidates);
    var hardViolations := collisionViolations + p.competencyMismatch(value);
    var loadPenalty := CalculateLoadPenalty(value, p.candidates, p.maxSks);
    var capacityShortfallPenalty := CalculateCapacityShortfallPenalty(value, p.candidates, p.roomById);
    var fragmentationPenalty := CalculateFragmentationPenalty(value, p.candidates, Some(p.lookup), p.slotsInOrder);
    var softPenalty := p.otherSoftPenalty(value) + loadPenalty + capacityShortfallPenalty + fragmentationPenalty;
    e := Evaluated(ch, FitnessOf(hardViolations, softPenalty, cfg.hardPenaltyWeight, cfg.softPenaltyWeight),
                   hardViolations, softPenalty);
  }

  // ---------------------------------------------------------------- populations

  /** Every member is legal for its candidates. */
  ghost predicate Legal(p: Problem, vals: seq<seq<GeneData>>)
    requires ProblemOk(p)
  {
    forall i :: 0 <= i < |vals| ==> ChromosomeOk(p.candidates, p.lookup, vals[i])
  }

  lemma LegalSnoc(p: Problem, vals: seq<seq<GeneData>>, v: seq<GeneData>)
    requires ProblemOk(p) && Legal(p, vals) && ChromosomeOk(p.candidates, p.lookup, v)
    ensures Legal(p, vals + [v])
  {
  }

  lemma NobodyIsLegal(p: Problem)
    requires ProblemOk(p)
    ensures Legal(p, [])
  {
  }

  lemma ProblemParts(p: Problem)
    requires ProblemOk(p)
    ensures CandidatesOk(p.candidates) && LookupOk(p.lookup) && p.candidates != [] &&
      Enumerates(p.slotsInOrder, p.lookup)
  {
  }

  lemma LegalAt(p: Problem, vals: seq<seq<GeneData>>, i: nat)
    requires ProblemOk(p) && Legal(p, vals) && i < |vals|
    ensures ChromosomeOk(p.candidates, p.lookup, vals[i])
  {
  }

  /** v is what some repair makes of input. */
  ghost predicate RepairOf(p: Problem, input: seq<GeneData>, v: seq<GeneData>) {
    exists flags :: |flags| == |p.candidates| && AllEarned(p.candidates, p.lookup, p.roomById, input, v, flags)
  }

  lemma RepairedBy(p: Problem, input: seq<GeneData>, v: seq<GeneData>, flags: seq<seq<bool>>)
    requires |flags| == |p.candidates| && AllEarned(p.candidates, p.lookup, p.roomById, input, v, flags)
    ensures RepairOf(p, input, v)
  {
    hide AllEarned;
  }

  /** v is a seeded chromosome, repaired. */
  ghost predicate Born(p: Problem, v: seq<GeneData>)
    requires ProblemOk(p)
  {
    exists seed :: SeededFrom(p.candidates, p.lookup, seed) && RepairOf(p, seed, v)
  }

  lemma BornFrom(p: Problem, seed: seq<GeneData>, v: seq<GeneData>)
    requires ProblemOk(p) && SeededFrom(p.candidates, p.lookup, seed) && RepairOf(p, seed, v)
    ensures Born(p, v)
  {
    hide SeededFrom, RepairOf;
  }

  /** A seeded and repaired individual in new objects. */
  method SeedIndividual(p: Problem) returns (repaired: Chromosome)
    requires ProblemOk(p)
    ensures fresh(repaired) && fresh(Objects(repaired)) && ChromosomeOk(p.candidates, p.lookup, Value(repaired))
    ensures Born(p, Value(repaired))
  {
    ProblemParts(p);
    hide *;
    var seeded := CreateRandomChromosome(p.candidates, p.lookup);
    ghost var flags, seed := [], Value(seeded);
    repaired, flags := RepairChromosome(seeded, p.candidates, p.lookup, p.roomById);
    RepairedBy(p, seed, Value(repaired), flags);
    BornFrom(p, seed, Value(repaired));
  }

  method InitialPopulation(p: Problem, cfg: Config)
    returns (population: seq<Chromosome>, ghost vals: seq<seq<GeneData>>)
    requires ProblemOk(p)
    ensures |population| == |vals| == cfg.populationSize && Legal(p, vals)
    ensures forall i :: 0 <= i < |population| ==> Value(population[i]) == vals[i]
    ensures forall i :: 0 <= i < |population| ==> ChromosomeOk(p.candidates, p.lookup, Value(population[i]))
    ensures forall i :: 0 <= i < |vals| ==> Born(p, vals[i])
  {
    hide *;
    ProblemParts(p);
    NobodyIsLegal(p);
    population, vals := [], [];
    for i := 0 to cfg.populationSize
      invariant |population| == |vals| == i && Legal(p, vals)
      invariant forall k :: 0 <= k < i ==> Born(p, vals[k])
      invariant forall k :: 0 <= k < i ==> |population[k]| == |vals[k]|
      invariant forall k, j :: 0 <= k < i && 0 <= j < |population[k]| ==> population[k][j].Data() == vals[k][j]
    {
      var repaired := SeedIndividual(p);
      LegalSnoc(p, vals, Value(repaired));
      population, vals := population + [repaired], vals + [Value(repaired)];
    }
    PopulationIs(population, vals);
    forall i | 0 <= i < |population|
      ensures ChromosomeOk(p.candidates, p.lookup, Value(population[i])) { LegalAt(p, vals, i); }
  }

  /** One evaluation per member, in population order. */
  method EvaluateAll(population: seq<Chromosome>, p: Problem, cfg: Config, ghost vals: seq<seq<GeneData>>)
    returns (es: seq<Evaluated>)
    requires ConfigOk(cfg) && Enumerates(p.slotsInOrder, p.lookup)
    requires |population| == |vals| && forall i :: 0 <= i < |population| ==> Value(population[i]) == vals[i]
    ensures |es| == |population|
    ensures forall i :: 0 <= i < |es| ==> es[i].chromosome == population[i] && Reports(p, cfg, es[i], vals[i])
    ensures forall i :: 0 <= i < |population| ==> Value(population[i]) == vals[i]
  {
    hide *;
    GenesAre(population, vals);
    es := [];
    for i := 0 to |population|
      invariant |es| == i
      invariant forall k, j :: 0 <= k < |population| && 0 <= j < |population[k]| ==>
        population[k][j].Data() == vals[k][j]
      invariant forall k :: 0 <= k < i ==> es[k].chromosome == population[k] && Reports(p, cfg, es[k], vals[k])
    {
      ValueIs(population[i], vals[i]);
      var e := EvaluateFitness(population[i], p, cfg, vals[i]);
      es := es + [e];
    }
    PopulationIs(population, vals);
  }

  // ---------------------------------------------------------------- the sort

  /** Stable insertion behind every entry that is at least as fit. */
  function InsertByFitness(e: Evaluated, es: seq<Evaluated>): (r: seq<Evaluated>)
    ensures |r| == |es| + 1
  {
    if es == [] then [e]
    else if es[|es| - 1].fitness >= e.fitness then es + [e]
    else InsertByFitness(e, es[..|es| - 1]) + [es[|es| - 1]]
  }

  /** evaluated.sort((a, b) => b.fitness - a.fitness) */
  function ByFitness(es: seq<Evaluated>): (r: seq<Evaluated>)
    ensures |r| == |es|
  {
    if es == [] then [] else InsertByFitness(es[|es| - 1], ByFitness(es[..|es| - 1]))
  }

  ghost predicate Descending(es: seq<Evaluated>) {
    forall i, j :: 0 <= i < j < |es| ==> es[i].fitness >= es[j].fitness
  }

  lemma {:induction false} InsertDescending(e: Evaluated, es: seq<Evaluated>)
    requires Descending(es)
    ensures Descending(InsertByFitness(e, es))
    ensures forall k :: 0 <= k <= |es| ==> InsertByFitness(e, es)[k] == e || InsertByFitness(e, es)[k] in es
  {
    if es != [] && es[|es| - 1].fitness < e.fitness {
      var front, last := es[..|es| - 1], es[|es| - 1];
      InsertDescending(e, front);
      var r := InsertByFitness(e, front);
      forall k | 0 <= k < |r| ensures r[k].fitness >= last.fitness {
        if r[k] != e {
          var i :| 0 <= i < |front| && front[i] == r[k];
        }
      }
    }
  }

  lemma {:induction false} ByFitnessDescends(es: seq<Evaluated>)
    ensures Descending(ByFitness(es))
  {
    if es != [] {
      ByFitnessDescends(es[..|es| - 1]);
      InsertDescending(es[|es| - 1], ByFitness(es[..|es| - 1]));
    }
  }

  ghost predicate Permuted<T>(a: seq<T>, b: seq<T>) {
    multiset(a) == multiset(b)
  }

  lemma {:induction false} InsertPermutes(e: Evaluated, es: seq<Evaluated>)
    ensures multiset(InsertByFitness(e, es)) == multiset(es) + multiset{e}
  {
    if es != [] && es[|es| - 1].fitness < e.fitness {
      assert es == es[..|es| - 1] + [es[|es| - 1]];
      InsertPermutes(e, es[..|es| - 1]);
    }
  }

  lemma {:induction false} SortPermutes(es: seq<Evaluated>)
    ensures Permuted(ByFitness(es), es)
  {
    if es != [] {
      var n := |es| - 1;
      assert es == es[..n] + [es[n]];
      SortPermutes(es[..n]);
      InsertPermutes(es[n], ByFitness(es[..n]));
      hide InsertByFitness;
    }
  }

  /** Insert v where the sort inserts e. */
  ghost function InsertValue<T>(e: Evaluated, v: T, es: seq<Evaluated>, vs: seq<T>): (r: seq<T>)
    requires |es| == |vs|
    ensures |r| == |vs| + 1
  {
    if es == [] then [v]
    else if es[|es| - 1].fitness >= e.fitness then vs + [v]
    else InsertValue(e, v, es[..|es| - 1], vs[..|vs| - 1]) + [vs[|vs| - 1]]
  }

  /** What goes along with each entry of the sorted list. */
  ghost function Along<T>(es: seq<Evaluated>, vs: seq<T>): (r: seq<T>)
    requires |es| == |vs|
    ensures |r| == |vs|
  {
    if es == [] then []
    else InsertValue(es[|es| - 1], vs[|es| - 1], ByFitness(es[..|es| - 1]), Along(es[..|es| - 1], vs[..|es| - 1]))
  }

  lemma {:induction false} InsertValuePermutes<T>(e: Evaluated, v: T, es: seq<Evaluated>, vs: seq<T>)
    requires |es| == |vs|
    ensures multiset(InsertValue(e, v, es, vs)) == multiset(vs) + multiset{v}
  {
    if es != [] && es[|es| - 1].fitness < e.fitness {
      assert vs == vs[..|vs| - 1] + [vs[|vs| - 1]];
      InsertValuePermutes(e, v, es[..|es| - 1], vs[..|vs| - 1]);
    }
  }

  lemma {:induction false} AlongPermutes<T>(es: seq<Evaluated>, vs: seq<T>)
    requires |es| == |vs|
    ensures Permuted(Along(es, vs), vs)
  {
    if es != [] {
      var n := |es| - 1;
      assert vs == vs[..n] + [vs[n]];
      AlongPermutes(es[..n], vs[..n]);
      InsertValuePermutes(es[n], vs[n], ByFitness(es[..n]), Along(es[..n], vs[..n]));
      hide InsertValue;
    }
  }

  /** The pair (e, v) is in the two lists at one position. */
  ghost predicate Paired<T>(es: seq<Evaluated>, vs: seq<T>, e: Evaluated, v: T) {
    exists j :: 0 <= j < |es| && j < |vs| && es[j] == e && vs[j] == v
  }

  lemma PairedSnoc<T>(es: seq<Evaluated>, vs: seq<T>, e: Evaluated, v: T, e': Evaluated, v': T)
    requires |es| == |vs|
    ensures Paired(es, vs, e, v) ==> Paired(es + [e'], vs + [v'], e, v)
    ensures Paired(es + [e'], vs + [v'], e', v')
  {
    var fs, ws := es + [e'], vs + [v'];
    if Paired(es, vs, e, v) {
      var j :| 0 <= j < |es| && es[j] == e && vs[j] == v;
      assert fs[j] == e && ws[j] == v;
    }
    assert fs[|es|] == e' && ws[|es|] == v';
  }

  lemma {:induction false} InsertPaired<T>(e: Evaluated, v: T, es: seq<Evaluated>, vs: seq<T>, k: nat)
    requires |es| == |vs| && k <= |es|
    ensures var x, y := InsertByFitness(e, es)[k], InsertValue(e, v, es, vs)[k];
      (x == e && y == v) || Paired(es, vs, x, y)
  {
    if es != [] && es[|es| - 1].fitness < e.fitness && k < |es| {
      var n := |es| - 1;
      InsertPaired(e, v, es[..n], vs[..n], k);
      assert es == es[..n] + [es[n]] && vs == vs[..n] + [vs[n]];
      PairedSnoc(es[..n], vs[..n], InsertByFitness(e, es)[k], InsertValue(e, v, es, vs)[k], es[n], vs[n]);
    }
  }

  lemma SortStep<T>(es: seq<Evaluated>, vs: seq<T>)
    requires |es| == |vs| && es != []
    ensures var n := |es| - 1;
      && ByFitness(es) == InsertByFitness(es[n], ByFitness(es[..n]))
      && Along(es, vs) == InsertValue(es[n], vs[n], ByFitness(es[..n]), Along(es[..n], vs[..n]))
  {
    hide InsertByFitness, InsertValue;
  }

  lemma {:induction false} SortPaired<T>(es: seq<Evaluated>, vs: seq<T>, k: nat)
    requires |es| == |vs| && k < |es|
    ensures Paired(es, vs, ByFitness(es)[k], Along(es, vs)[k])
  {
    hide InsertByFitness, InsertValue, ByFitness, Along, Paired;
    var n := |es| - 1;
    var fs, ws := ByFitness(es[..n]), Along(es[..n], vs[..n]);
    var x, y := ByFitness(es)[k], Along(es, vs)[k];
    SortStep(es, vs);
    InsertPaired(es[n], vs[n], fs, ws, k);
    if Paired(fs, ws, x, y) {
      var j := PairedAt(fs, ws, x, y);
      SortPaired(es[..n], vs[..n], j);
    }
    assert es == es[..n] + [es[n]] && vs == vs[..n] + [vs[n]];
    PairedSnoc(es[..n], vs[..n], x, y, es[n], vs[n]);
  }

  lemma PairedAt<T>(es: seq<Evaluated>, vs: seq<T>, e: Evaluated, v: T) returns (j: nat)
    requires Paired(es, vs, e, v)
    ensures j < |es| && j < |vs| && es[j] == e && vs[j] == v
  {
    j :| 0 <= j < |es| && j < |vs| && es[j] == e && vs[j] == v;
  }

  /** The fittest first; along lists what belongs to the sorted entries. */
  method SortByFitness<T>(es: seq<Evaluated>, ghost vs: seq<T>) returns (sorted: seq<Evaluated>, ghost along: seq<T>)
    requires |es| == |vs|
    ensures |sorted| == |along| == |es| && Permuted(sorted, es) && Descending(sorted)
    ensures Permuted(along, vs) && forall k :: 0 <= k < |sorted| ==> Paired(es, vs, sorted[k], along[k])
  {
    sorted, along := ByFitness(es), Along(es, vs);
    ByFitnessDescends(es);
    AlongPermutes(es, vs);
    SortPermutes(es);
    hide Permuted, Descending, Paired;
    forall k | 0 <= k < |sorted| ensures Paired(es, vs, sorted[k], along[k]) { SortPaired(es, vs, k); }
  }

  /** The first of the fittest among tournamentSize drawn members. */
  ghost predicate WinsAmong(best: Evaluated, drawn: seq<Evaluated>) {
    exists w :: 0 <= w < |drawn| && drawn[w] == best &&
      (forall i :: 0 <= i < w ==> drawn[i].fitness < best.fitness) &&
        (forall i :: w <= i < |drawn| ==> drawn[i].fitness <= best.fitness)
  }

  method TournamentSelection(es: seq<Evaluated>, tournamentSize: nat)
    returns (best: Evaluated, ghost drawn: seq<Evaluated>)
    requires es != [] && tournamentSize > 0
    ensures best in es
    ensures |drawn| == tournamentSize && (forall d :: d in drawn ==> d in es) && WinsAmong(best, drawn)
  {
    var first := RandomIndex(|es|);
    best := es[first];
    drawn := [best];
    ghost var w := 0;
    for i := 1 to tournamentSize
      invariant |drawn| == i && (forall d :: d in drawn ==> d in es)
      invariant w < i && drawn[w] == best
      invariant forall j :: 0 <= j < w ==> drawn[j].fitness < best.fitness
      invariant forall j :: w <= j < i ==> drawn[j].fitness <= best.fitness
    {
      var idx := RandomIndex(|es|);
      drawn := drawn + [es[idx]];
      if es[idx].fitness > best.fitness {
        best := es[idx];
        w := i;
      }
    }
  }

  // ---------------------------------------------------------------- the next generation

  /** evals are the legal values of the evaluated chromosomes. */
  ghost predicate Evaluations(p: Problem, es: seq<Evaluated>, evals: seq<seq<GeneData>>)
    requires ProblemOk(p)
  {
    |es| == |evals| && Legal(p, evals)
  }

  /** v is a mutation of a, repaired. */
  ghost predicate Grown(p: Problem, cfg: Config, a: seq<GeneData>, v: seq<GeneData>)
    requires ProblemOk(p)
  {
    exists m :: MutatedLoci(p.candidates, p.lookup, cfg.mutationRate, a, m) && RepairOf(p, m, v)
  }

  lemma GrownFrom(p: Problem, cfg: Config, a: seq<GeneData>, m: seq<GeneData>, v: seq<GeneData>)
    requires ProblemOk(p) && MutatedLoci(p.candidates, p.lookup, cfg.mutationRate, a, m) && RepairOf(p, m, v)
    ensures Grown(p, cfg, a, v)
  {
    hide MutatedLoci, RepairOf;
  }

  /** v1 and v2 come from crossing two parents with the configured strategy, mutating and repairing. */
  ghost predicate Children(p: Problem, cfg: Config, p1: seq<GeneData>, p2: seq<GeneData>, v1: seq<GeneData>,
                           v2: seq<GeneData>)
    requires ProblemOk(p)
  {
    exists a, b :: Crossed(cfg.crossoverType, p1, p2, a, b) && Grown(p, cfg, a, v1) && Grown(p, cfg, b, v2)
  }

  lemma ChildrenFrom(p: Problem, cfg: Config, p1: seq<GeneData>, p2: seq<GeneData>, a: seq<GeneData>,
                     b: seq<GeneData>, m: seq<GeneData>, n: seq<GeneData>, v1: seq<GeneData>, v2: seq<GeneData>)
    requires ProblemOk(p) && Crossed(cfg.crossoverType, p1, p2, a, b)
    requires MutatedLoci(p.candidates, p.lookup, cfg.mutationRate, a, m) && RepairOf(p, m, v1)
    requires MutatedLoci(p.candidates, p.lookup, cfg.mutationRate, b, n) && RepairOf(p, n, v2)
    ensures Children(p, cfg, p1, p2, v1, v2)
  {
    GrownFrom(p, cfg, a, m, v1);
    GrownFrom(p, cfg, b, n, v2);
    hide Crossed, Grown, MutatedLoci, RepairOf;
  }

  /** Cross two chromosomes, mutate and repair: two new legal chromosomes; the parents are only read. */
  method BreedFrom(parent1: Chromosome, parent2: Chromosome, p: Problem, cfg: Config)
    returns (child1: Chromosome, child2: Chromosome)
    requires ProblemOk(p)
    requires ChromosomeOk(p.candidates, p.lookup, Value(parent1)) &&
      ChromosomeOk(p.candidates, p.lookup, Value(parent2))
    ensures ChromosomeOk(p.candidates, p.lookup, Value(child1)) && ChromosomeOk(p.candidates, p.lookup, Value(child2))
    ensures fresh(child1) && fresh(Objects(child1)) && fresh(child2) && fresh(Objects(child2))
    ensures Children(p, cfg, old(Value(parent1)), old(Value(parent2)), Value(child1), Value(child2))
  {
    ProblemParts(p);
    hide *;
    ghost var p1, p2 := Value(parent1), Value(parent2);
    child1, child2 := Crossover(cfg.crossoverType, parent1, parent2, p.candidates, p.lookup);
    ghost var a, b := Value(child1), Value(child2);
    child1, child2 := MutateBoth(child1, child2, p, cfg);
    ghost var m, n := Value(child1), Value(child2);
    child1, child2 := RepairBoth(child1, child2, p);
    ChildrenFrom(p, cfg, p1, p2, a, b, m, n, Value(child1), Value(child2));
  }

  method MutateBoth(a: Chromosome, b: Chromosome, p: Problem, cfg: Config) returns (c: Chromosome, d: Chromosome)
    requires ProblemOk(p)
    requires ChromosomeOk(p.candidates, p.lookup, Value(a)) && ChromosomeOk(p.candidates, p.lookup, Value(b))
    ensures ChromosomeOk(p.candidates, p.lookup, Value(c)) && ChromosomeOk(p.candidates, p.lookup, Value(d))
    ensures MutatedLoci(p.candidates, p.lookup, cfg.mutationRate, old(Value(a)), Value(c))
    ensures MutatedLoci(p.candidates, p.lookup, cfg.mutationRate, old(Value(b)), Value(d))
  {
    ProblemParts(p);
    hide *;
    ghost var va, vb := Value(a), Value(b);
    c := MutateChromosome(a, p.candidates, cfg.mutationRate, p.lookup);
    ghost var vc := Value(c);
    ValueIs(b, vb);
    d := MutateChromosome(b, p.candidates, cfg.mutationRate, p.lookup);
    ValueIs(c, vc);
  }

  method RepairBoth(a: Chromosome, b: Chromosome, p: Problem) returns (c: Chromosome, d: Chromosome)
    requires ProblemOk(p)
    requires ChromosomeOk(p.candidates, p.lookup, Value(a)) && ChromosomeOk(p.candidates, p.lookup, Value(b))
    ensures ChromosomeOk(p.candidates, p.lookup, Value(c)) && ChromosomeOk(p.candidates, p.lookup, Value(d))
    ensures fresh(c) && fresh(Objects(c)) && fresh(d) && fresh(Objects(d))
    ensures RepairOf(p, old(Value(a)), Value(c)) && RepairOf(p, old(Value(b)), Value(d))
  {
    hide *;
    ghost var va, vb := Value(a), Value(b);
    c := RepairChild(a, p);
    ghost var vc := Value(c);
    ValueIs(b, vb);
    d := RepairChild(b, p);
    ValueIs(c, vc);
  }

  method RepairChild(a: Chromosome, p: Problem) returns (c: Chromosome)
    requires ProblemOk(p) && ChromosomeOk(p.candidates, p.lookup, Value(a))
    ensures ChromosomeOk(p.candidates, p.lookup, Value(c)) && fresh(c) && fresh(Objects(c))
    ensures RepairOf(p, old(Value(a)), Value(c))
  {
    ProblemParts(p);
    hide *;
    ghost var flags, input := [], Value(a);
    c, flags := RepairChromosome(a, p.candidates, p.lookup, p.roomById);
    RepairedBy(p, input, Value(c), flags);
  }

  /** Two members of the generation are the parents. */
  ghost predicate BredFrom(p: Problem, cfg: Config, evals: seq<seq<GeneData>>, v1: seq<GeneData>, v2: seq<GeneData>)
    requires ProblemOk(p)
  {
    exists i, j :: 0 <= i < |evals| && 0 <= j < |evals| && Children(p, cfg, evals[i], evals[j], v1, v2)
  }

  lemma BredBy(p: Problem, cfg: Config, evals: seq<seq<GeneData>>, i: nat, j: nat, v1: seq<GeneData>,
               v2: seq<GeneData>)
    requires ProblemOk(p) && i < |evals| && j < |evals| && Children(p, cfg, evals[i], evals[j], v1, v2)
    ensures BredFrom(p, cfg, evals, v1, v2)
  {
    hide Children;
  }

  /** Two selected parents and their children. */
  method Breed(es: seq<Evaluated>, p: Problem, cfg: Config, ghost evals: seq<seq<GeneData>>)
    returns (child1: Chromosome, child2: Chromosome)
    requires ProblemOk(p) && ConfigOk(cfg) && es != [] && Evaluations(p, es, evals)
    requires forall i :: 0 <= i < |es| ==> Value(es[i].chromosome) == evals[i]
    ensures ChromosomeOk(p.candidates, p.lookup, Value(child1)) && ChromosomeOk(p.candidates, p.lookup, Value(child2))
    ensures fresh(child1) && fresh(Objects(child1)) && fresh(child2) && fresh(Objects(child2))
    ensures BredFrom(p, cfg, evals, Value(child1), Value(child2))
  {
    hide CandidatesOk, ChromosomeOk, LookupOk, Value, Objects, WinsAmong, BredFrom, Children;
    EvaluatedGenes(es, evals);
    ghost var drawn;
    var parent1, parent2;
    parent1, drawn := TournamentSelection(es, cfg.tournamentSize);
    parent2, drawn := TournamentSelection(es, cfg.tournamentSize);
    ghost var i :| 0 <= i < |es| && es[i] == parent1;
    ghost var j :| 0 <= j < |es| && es[j] == parent2;
    ValueIs(parent1.chromosome, evals[i]);
    ValueIs(parent2.chromosome, evals[j]);
    child1, child2 := BreedFrom(parent1.chromosome, parent2.chromosome, p, cfg);
    BredBy(p, cfg, evals, i, j, Value(child1), Value(child2));
  }

  lemma EvaluatedGenes(es: seq<Evaluated>, evals: seq<seq<GeneData>>)
    requires |es| == |evals| && forall i :: 0 <= i < |es| ==> Value(es[i].chromosome) == evals[i]
    ensures forall i :: 0 <= i < |es| ==> |es[i].chromosome| == |evals[i]|
    ensures forall i, j :: 0 <= i < |es| && 0 <= j < |es[i].chromosome| ==> es[i].chromosome[j].Data() == evals[i][j]
  {
    hide Value;
    forall i, j | 0 <= i < |es| && 0 <= j < |es[i].chromosome| ensures es[i].chromosome[j].Data() == evals[i][j] {
      assert Value(es[i].chromosome)[j] == es[i].chromosome[j].Data();
    }
  }

  lemma EvaluatedAre(es: seq<Evaluated>, evals: seq<seq<GeneData>>)
    requires |es| == |evals| && forall i :: 0 <= i < |es| ==> |es[i].chromosome| == |evals[i]|
    requires forall i, j :: 0 <= i < |es| && 0 <= j < |es[i].chromosome| ==> es[i].chromosome[j].Data() == evals[i][j]
    ensures forall i :: 0 <= i < |es| ==> Value(es[i].chromosome) == evals[i]
  {
    hide Value;
    forall i | 0 <= i < |es| ensures Value(es[i].chromosome) == evals[i] { ValueIs(es[i].chromosome, evals[i]); }
  }

  /** From position e on, vals holds the children of members of evals pair by pair; the last pair may be cut. */
  ghost predicate Offspring(p: Problem, cfg: Config, evals: seq<seq<GeneData>>, vals: seq<seq<GeneData>>, e: nat)
    requires ProblemOk(p)
  {
    forall i :: e <= i < |vals| && (i - e) % 2 == 0 ==> PairAt(p, cfg, evals, vals, i)
  }

  ghost predicate PairAt(p: Problem, cfg: Config, evals: seq<seq<GeneData>>, vals: seq<seq<GeneData>>, i: nat)
    requires ProblemOk(p) && i < |vals|
  {
    exists v2 :: BredFrom(p, cfg, evals, vals[i], v2) && (i + 1 < |vals| ==> vals[i + 1] == v2)
  }

  lemma OffspringGrows(p: Problem, cfg: Config, evals: seq<seq<GeneData>>, vals: seq<seq<GeneData>>, e: nat,
                       v1: seq<GeneData>, v2: seq<GeneData>)
    requires ProblemOk(p) && Offspring(p, cfg, evals, vals, e) && e <= |vals| && (|vals| - e) % 2 == 0
    requires BredFrom(p, cfg, evals, v1, v2)
    ensures Offspring(p, cfg, evals, vals + [v1] + [v2], e)
  {
    hide BredFrom;
    var all := vals + [v1] + [v2];
    forall i | e <= i < |all| && (i - e) % 2 == 0 ensures PairAt(p, cfg, evals, all, i) {
      if i < |vals| {
        assert PairAt(p, cfg, evals, vals, i);
        var w :| BredFrom(p, cfg, evals, vals[i], w) && (i + 1 < |vals| ==> vals[i + 1] == w);
        assert i + 1 != |vals|;
        assert BredFrom(p, cfg, evals, all[i], w);
      } else {
        assert i != |vals| + 1;
        assert BredFrom(p, cfg, evals, all[i], v2);
      }
    }
  }

  lemma OffspringPrefix(p: Problem, cfg: Config, evals: seq<seq<GeneData>>, vals: seq<seq<GeneData>>, e: nat, n: nat)
    requires ProblemOk(p) && Offspring(p, cfg, evals, vals, e) && n <= |vals|
    ensures Offspring(p, cfg, evals, vals[..n], e)
  {
    hide BredFrom;
    forall i | e <= i < n && (i - e) % 2 == 0 ensures PairAt(p, cfg, evals, vals[..n], i) {
      assert PairAt(p, cfg, evals, vals, i);
      var w :| BredFrom(p, cfg, evals, vals[i], w) && (i + 1 < |vals| ==> vals[i + 1] == w);
      assert BredFrom(p, cfg, evals, vals[..n][i], w);
    }
  }

  lemma NoOffspring(p: Problem, cfg: Config, evals: seq<seq<GeneData>>, vals: seq<seq<GeneData>>)
    requires ProblemOk(p)
    ensures Offspring(p, cfg, evals, vals, |vals|)
  {
  }

  /** The elite by reference, then bred pairs until the population is full, cut to size. */
  method NextPopulation(es: seq<Evaluated>, p: Problem, cfg: Config, ghost evals: seq<seq<GeneData>>)
    returns (population: seq<Chromosome>, ghost vals: seq<seq<GeneData>>)
    requires ProblemOk(p) && ConfigOk(cfg) && es != [] && Evaluations(p, es, evals)
    requires forall i :: 0 <= i < |es| ==> Value(es[i].chromosome) == evals[i]
    ensures |population| == |vals| == cfg.populationSize && Legal(p, vals)
    ensures forall i :: 0 <= i < |population| ==> Value(population[i]) == vals[i]
    ensures forall i :: 0 <= i < |population| ==>
      (if i < cfg.elitismCount && i < |es| then population[i] == es[i].chromosome && vals[i] == evals[i]
       else fresh(population[i]) && fresh(Objects(population[i])))
    ensures forall i :: 0 <= i < |population| ==> ChromosomeOk(p.candidates, p.lookup, Value(population[i]))
    ensures Offspring(p, cfg, evals, vals, Min(cfg.elitismCount, |es|))
  {
    hide *;
    EvaluationFacts(p, es, evals);
    MinIs(cfg.elitismCount, |es|);
    EvaluatedGenes(es, evals);
    population, vals := Elite(es, p, cfg, evals);
    EvaluatedAre(es, evals);
    population, vals := FillUp(es, p, cfg, evals, population, vals);
    LegalPrefix(p, vals, cfg.populationSize);
    OffspringPrefix(p, cfg, evals, vals, Min(cfg.elitismCount, |es|), cfg.populationSize);
    population, vals := population[..cfg.populationSize], vals[..cfg.populationSize];
    forall i | 0 <= i < |population|
      ensures ChromosomeOk(p.candidates, p.lookup, Value(population[i])) { LegalAt(p, vals, i); }
  }

  lemma EvaluationFacts(p: Problem, es: seq<Evaluated>, evals: seq<seq<GeneData>>)
    requires ProblemOk(p) && Evaluations(p, es, evals)
    ensures |es| == |evals| && Legal(p, evals) && CandidatesOk(p.candidates)
  {
    hide CandidatesOk, Legal;
  }

  /** evaluated.slice(0, config.elitismCount).map(e => e.chromosome) */
  method Elite(es: seq<Evaluated>, p: Problem, cfg: Config, ghost evals: seq<seq<GeneData>>)
    returns (population: seq<Chromosome>, ghost vals: seq<seq<GeneData>>)
    requires ProblemOk(p) && |es| == |evals| && Legal(p, evals)
    ensures |population| == |vals| == Min(cfg.elitismCount, |es|) && Legal(p, vals)
    ensures forall i :: 0 <= i < |population| ==> population[i] == es[i].chromosome && vals[i] == evals[i]
  {
    hide ChromosomeOk, ProblemOk;
    population, vals := [], [];
    for i := 0 to Min(cfg.elitismCount, |es|)
      invariant |population| == |vals| == i && Legal(p, vals)
      invariant forall j :: 0 <= j < i ==> population[j] == es[j].chromosome && vals[j] == evals[j]
    {
      population, vals := population + [es[i].chromosome], vals + [evals[i]];
    }
  }

  /** while (newPop.length < config.populationSize) { ... newPop.push(c1, c2) } */
  method FillUp(es: seq<Evaluated>, p: Problem, cfg: Config, ghost evals: seq<seq<GeneData>>,
                elite: seq<Chromosome>, ghost eliteVals: seq<seq<GeneData>>)
    returns (population: seq<Chromosome>, ghost vals: seq<seq<GeneData>>)
    requires ProblemOk(p) && ConfigOk(cfg) && es != [] && Evaluations(p, es, evals)
    requires forall i :: 0 <= i < |es| ==> Value(es[i].chromosome) == evals[i]
    requires |elite| == |eliteVals| <= |es| && Legal(p, eliteVals)
    requires forall i :: 0 <= i < |elite| ==> elite[i] == es[i].chromosome && eliteVals[i] == evals[i]
    ensures |population| == |vals| >= cfg.populationSize && |population| >= |elite| && Legal(p, vals)
    ensures forall i :: 0 <= i < |population| ==> Value(population[i]) == vals[i]
    ensures forall i :: 0 <= i < |elite| ==> population[i] == elite[i] && vals[i] == eliteVals[i]
    ensures forall i :: |elite| <= i < |population| ==> fresh(population[i]) && fresh(Objects(population[i]))
    ensures Offspring(p, cfg, evals, vals, |elite|)
  {
    hide *;
    EvaluationFacts(p, es, evals);
    EvaluatedGenes(es, evals);
    population, vals := elite, eliteVals;
    NoOffspring(p, cfg, evals, vals);
    while |population| < cfg.populationSize
      invariant |population| == |vals| >= |elite| && Legal(p, vals)
      invariant Offspring(p, cfg, evals, vals, |elite|) && (|vals| - |elite|) % 2 == 0
      invariant forall i, j :: 0 <= i < |es| && 0 <= j < |es[i].chromosome| ==>
        es[i].chromosome[j].Data() == evals[i][j]
      invariant forall k :: 0 <= k < |population| ==> |population[k]| == |vals[k]|
      invariant forall k, j :: 0 <= k < |population| && 0 <= j < |population[k]| ==>
        population[k][j].Data() == vals[k][j]
      invariant forall i :: 0 <= i < |elite| ==> population[i] == elite[i] && vals[i] == eliteVals[i]
      invariant forall i :: |elite| <= i < |population| ==> fresh(population[i]) && fresh(Objects(population[i]))
      decreases cfg.populationSize - |population|
    {
      EvaluatedAre(es, evals);
      var child1, child2 := Breed(es, p, cfg, evals);
      LegalSnoc(p, vals, Value(child1));
      LegalSnoc(p, vals + [Value(child1)], Value(child2));
      OffspringGrows(p, cfg, evals, vals, |elite|, Value(child1), Value(child2));
      population, vals := population + [child1] + [child2], vals + [Value(child1)] + [Value(child2)];
    }
    PopulationIs(population, vals);
  }

  lemma LegalPrefix(p: Problem, vals: seq<seq<GeneData>>, n: nat)
    requires ProblemOk(p) && Legal(p, vals) && n <= |vals|
    ensures Legal(p, vals[..n])
  {
  }

  // ---------------------------------------------------------------- one generation, evaluated

  /** h is the largest fitness in the population. */
  ghost predicate IsBestOf(p: Problem, cfg: Config, h: real, vals: seq<seq<GeneData>>)
    requires ConfigOk(cfg)
  {
    (exists i :: 0 <= i < |vals| && FitOf(p, cfg, vals[i]) == h) &&
      forall i :: 0 <= i < |vals| ==> FitOf(p, cfg, vals[i]) <= h
  }

  /** vals, fittest first. */
  ghost predicate Ranking(p: Problem, cfg: Config, ranked: seq<seq<GeneData>>, vals: seq<seq<GeneData>>)
    requires ConfigOk(cfg)
  {
    Permuted(ranked, vals) &&
      forall i, j :: 0 <= i < j < |ranked| ==> FitOf(p, cfg, ranked[i]) >= FitOf(p, cfg, ranked[j])
  }

  lemma FirstIsBest(p: Problem, cfg: Config, ranked: seq<seq<GeneData>>, vals: seq<seq<GeneData>>)
    requires ConfigOk(cfg) && Ranking(p, cfg, ranked, vals) && ranked != []
    ensures IsBestOf(p, cfg, FitOf(p, cfg, ranked[0]), vals) && ranked[0] in vals && |ranked| == |vals|
  {
    SameMultiset(ranked, vals);
    hide FitOf;
    assert ranked[0] in Elements(ranked);
    var k :| 0 <= k < |vals| && vals[k] == ranked[0];
    forall i | 0 <= i < |vals| ensures FitOf(p, cfg, vals[i]) <= FitOf(p, cfg, ranked[0]) {
      assert vals[i] in Elements(vals);
      var j :| 0 <= j < |ranked| && ranked[j] == vals[i];
    }
  }

  lemma RankedIsLegal(p: Problem, cfg: Config, ranked: seq<seq<GeneData>>, vals: seq<seq<GeneData>>)
    requires ProblemOk(p) && ConfigOk(cfg) && Ranking(p, cfg, ranked, vals) && Legal(p, vals)
    ensures Legal(p, ranked)
  {
    SameMultiset(ranked, vals);
    hide FitOf, ChromosomeOk;
    forall i | 0 <= i < |ranked| ensures ChromosomeOk(p.candidates, p.lookup, ranked[i]) {
      assert ranked[i] in Elements(ranked);
      var k :| 0 <= k < |vals| && vals[k] == ranked[i];
    }
  }

  function FitnessSum(es: seq<Evaluated>): real {
    if es == [] then 0.0 else FitnessSum(es[..|es| - 1]) + es[|es| - 1].fitness
  }

  lemma {:induction false} SumBound(es: seq<Evaluated>, h: real)
    requires forall i :: 0 <= i < |es| ==> es[i].fitness <= h
    ensures FitnessSum(es) <= |es| as real * h
  {
    if es != [] {
      SumBound(es[..|es| - 1], h);
      assert |es| as real * h == (|es| - 1) as real * h + h;
    }
  }

  lemma AverageBound(sum: real, n: nat, h: real)
    requires n > 0 && sum <= n as real * h
    ensures sum / n as real <= h
  {
    var x := sum / n as real;
    assert x * n as real == sum;
    if x > h { assert x * n as real > h * n as real; }
  }

  /** The fitness of all chromosomes together. */
  ghost function TotalFitness(p: Problem, cfg: Config, vals: seq<seq<GeneData>>): real
    requires ConfigOk(cfg)
  {
    if vals == [] then 0.0 else TotalFitness(p, cfg, vals[..|vals| - 1]) + FitOf(p, cfg, vals[|vals| - 1])
  }

  lemma {:induction false} TotalWithout(p: Problem, cfg: Config, vals: seq<seq<GeneData>>, k: nat)
    requires ConfigOk(cfg) && k < |vals|
    ensures TotalFitness(p, cfg, vals) == TotalFitness(p, cfg, vals[..k] + vals[k + 1..]) + FitOf(p, cfg, vals[k])
  {
    hide FitOf;
    var n := |vals| - 1;
    var rest := vals[..k] + vals[k + 1..];
    if k == n {
      assert rest == vals[..n];
    } else {
      TotalWithout(p, cfg, vals[..n], k);
      assert rest[..n - 1] == vals[..n][..k] + vals[..n][k + 1..] && rest[n - 1] == vals[n];
    }
  }

  /** The total does not depend on the order. */
  lemma {:induction false} TotalPermuted(p: Problem, cfg: Config, a: seq<seq<GeneData>>, b: seq<seq<GeneData>>)
    requires ConfigOk(cfg) && multiset(a) == multiset(b)
    ensures TotalFitness(p, cfg, a) == TotalFitness(p, cfg, b)
    decreases |a|
  {
    hide FitOf;
    if a == [] {
      assert |multiset(b)| == 0 && b == [];
    } else {
      var k := LastIn(a, b);
      TotalPermuted(p, cfg, a[..|a| - 1], b[..k] + b[k + 1..]);
      TotalWithout(p, cfg, b, k);
    }
  }

  lemma {:induction false} SumIsTotal(p: Problem, cfg: Config, es: seq<Evaluated>, evals: seq<seq<GeneData>>)
    requires ConfigOk(cfg) && |es| == |evals|
    requires forall i :: 0 <= i < |es| ==> Reports(p, cfg, es[i], evals[i])
    ensures FitnessSum(es) == TotalFitness(p, cfg, evals)
  {
    hide FitOf, HardOf, SoftOf;
    if es != [] { SumIsTotal(p, cfg, es[..|es| - 1], evals[..|evals| - 1]); }
  }

  /** avg is the mean fitness of the population. */
  ghost predicate IsMean(p: Problem, cfg: Config, avg: real, vals: seq<seq<GeneData>>)
    requires ConfigOk(cfg)
  {
    avg * |vals| as real == TotalFitness(p, cfg, vals)
  }

  lemma MeanOfRanking(p: Problem, cfg: Config, es: seq<Evaluated>, evals: seq<seq<GeneData>>,
                      vals: seq<seq<GeneData>>, avg: real)
    requires ConfigOk(cfg) && |es| == |evals| == |vals| > 0 && Ranking(p, cfg, evals, vals)
    requires forall i :: 0 <= i < |es| ==> Reports(p, cfg, es[i], evals[i])
    requires avg == FitnessSum(es) / |es| as real
    ensures IsMean(p, cfg, avg, vals)
  {
    hide *;
    SumIsTotal(p, cfg, es, evals);
    TotalOfRanking(p, cfg, evals, vals);
    Quotient(FitnessSum(es), |es| as real, avg);
    MeanBy(p, cfg, avg, vals);
  }

  lemma MeanBy(p: Problem, cfg: Config, avg: real, vals: seq<seq<GeneData>>)
    requires ConfigOk(cfg) && avg * |vals| as real == TotalFitness(p, cfg, vals)
    ensures IsMean(p, cfg, avg, vals)
  {
  }

  lemma TotalOfRanking(p: Problem, cfg: Config, evals: seq<seq<GeneData>>, vals: seq<seq<GeneData>>)
    requires ConfigOk(cfg) && Ranking(p, cfg, evals, vals)
    ensures TotalFitness(p, cfg, evals) == TotalFitness(p, cfg, vals)
  {
    hide FitOf, TotalFitness;
    TotalPermuted(p, cfg, evals, vals);
  }

  lemma Quotient(sum: real, n: real, avg: real)
    requires n > 0.0 && avg == sum / n
    ensures avg * n == sum
  {
  }

  /** Evaluate and sort: every entry reports its value, fittest first, and the average is the population's mean. */
  method EvaluateGeneration(population: seq<Chromosome>, p: Problem, cfg: Config, ghost vals: seq<seq<GeneData>>)
    returns (es: seq<Evaluated>, avgFitness: real, ghost evals: seq<seq<GeneData>>)
    requires ProblemOk(p) && ConfigOk(cfg) && |population| == |vals| == cfg.populationSize > 0 && Legal(p, vals)
    requires forall i :: 0 <= i < |population| ==> Value(population[i]) == vals[i]
    ensures |es| == |evals| == cfg.populationSize && Descending(es) && avgFitness <= es[0].fitness
    ensures Ranking(p, cfg, evals, vals) && Legal(p, evals) && IsMean(p, cfg, avgFitness, vals)
    ensures forall i :: 0 <= i < |es| ==> Reports(p, cfg, es[i], evals[i]) && Value(es[i].chromosome) == evals[i]
  {
    hide *;
    es, evals := Rank(population, p, cfg, vals);
    RankedIsLegal(p, cfg, evals, vals);
    FirstBounds(es);
    SumBound(es, es[0].fitness);
    avgFitness := FitnessSum(es) / |es| as real;
    AverageBound(FitnessSum(es), |es|, es[0].fitness);
    MeanOfRanking(p, cfg, es, evals, vals, avgFitness);
  }

  lemma FirstBounds(es: seq<Evaluated>)
    requires Descending(es) && es != []
    ensures forall i :: 0 <= i < |es| ==> es[i].fitness <= es[0].fitness
  {
  }

  method Rank(population: seq<Chromosome>, p: Problem, cfg: Config, ghost vals: seq<seq<GeneData>>)
    returns (es: seq<Evaluated>, ghost evals: seq<seq<GeneData>>)
    requires ProblemOk(p) && ConfigOk(cfg) && |population| == |vals| == cfg.populationSize
    requires forall i :: 0 <= i < |population| ==> Value(population[i]) == vals[i]
    ensures |es| == |evals| == cfg.populationSize && Descending(es) && Ranking(p, cfg, evals, vals)
    ensures forall i :: 0 <= i < |es| ==> Reports(p, cfg, es[i], evals[i])
    ensures forall i :: 0 <= i < |es| ==> Value(es[i].chromosome) == evals[i]
  {
    hide *;
    ProblemParts(p);
    var unsorted := EvaluateAll(population, p, cfg, vals);
    GenesAre(population, vals);
    es, evals := SortByFitness(unsorted, vals);
    PopulationIs(population, vals);
    forall i | 0 <= i < |es| ensures Reports(p, cfg, es[i], evals[i]) && Value(es[i].chromosome) == evals[i] {
      PairedReports(p, cfg, population, unsorted, vals, es[i], evals[i]);
    }
    ReportsRank(p, cfg, es, evals, vals);
  }

  lemma PairedReports(p: Problem, cfg: Config, population: seq<Chromosome>, es: seq<Evaluated>,
                      vals: seq<seq<GeneData>>, e: Evaluated, v: seq<GeneData>)
    requires ConfigOk(cfg) && |population| == |es| == |vals| && Paired(es, vals, e, v)
    requires forall i :: 0 <= i < |es| ==> es[i].chromosome == population[i] && Reports(p, cfg, es[i], vals[i])
    requires forall i :: 0 <= i < |population| ==> Value(population[i]) == vals[i]
    ensures Reports(p, cfg, e, v) && Value(e.chromosome) == v
  {
    hide Reports, Value;
    var j :| 0 <= j < |es| && es[j] == e && vals[j] == v;
  }

  lemma ReportsRank(p: Problem, cfg: Config, es: seq<Evaluated>, evals: seq<seq<GeneData>>, vals: seq<seq<GeneData>>)
    requires ConfigOk(cfg) && |es| == |evals| && Descending(es) && Permuted(evals, vals)
    requires forall i :: 0 <= i < |es| ==> Reports(p, cfg, es[i], evals[i])
    ensures Ranking(p, cfg, evals, vals)
  {
    hide FitOf, HardOf, SoftOf, Permuted;
  }

  // ---------------------------------------------------------------- what the run records

  const STAGNATION_WINDOW := 100
  const STAGNATION_THRESHOLD := 0.000001

  /** The entry that the stagnation test compares with: the last one that gained more than a millionth on the entry
      that was compared with before it. */
  function BaselineAt(history: seq<real>): (b: nat)
    requires history != []
    ensures b < |history|
  {
    var n := |history| - 1;
    if n == 0 then 0
    else
      var b := BaselineAt(history[..n]);
      if history[n] - history[b] > 0.000001 then n else b
  }

  /** The baseline gained on an earlier baseline unless it is the first entry, and nothing behind it gained on it. */
  lemma {:induction false} BaselineMeans(history: seq<real>)
    requires history != []
    ensures var b := BaselineAt(history);
      && (forall k :: b < k < |history| ==> history[k] - history[b] <= 0.000001)
      && (b > 0 ==> history[b] - history[BaselineAt(history[..b])] > 0.000001)
      && BaselineAt(history[..b + 1]) == b
  {
    var n := |history| - 1;
    var b := BaselineAt(history);
    if n > 0 {
      BaselineMeans(history[..n]);
      if b < n { assert history[..n][..b] == history[..b] && history[..n][..b + 1] == history[..b + 1]; }
    }
    if b == n { assert history[..b + 1] == history; }
  }

  /** The run's counter and recorded fitness are the distance to the baseline and its value. */
  ghost predicate Baseline(history: seq<real>, counter: nat, recorded: Option<real>) {
    if history == [] then counter == 0 && recorded.None?
    else counter == |history| - 1 - BaselineAt(history) && recorded == Some(history[BaselineAt(history)])
  }

  lemma BaselineStep(history: seq<real>, counter: nat, recorded: Option<real>, h: real)
    requires Baseline(history, counter, recorded)
    ensures if recorded.None? || h - recorded.value > STAGNATION_THRESHOLD
            then Baseline(history + [h], 0, Some(h)) else Baseline(history + [h], counter + 1, recorded)
  {
    assert (history + [h])[..|history|] == history;
  }

  /** The best chromosome recorded so far, by value. */
  datatype Best = Best(value: seq<GeneData>, fitness: real, hardViolations: nat, softPenalty: nat)

  /** The first maximum of the history. */
  ghost predicate FirstMaximum(history: seq<real>, g: int) {
    && 0 <= g < |history|
    && (forall k :: 0 <= k < |history| ==> history[k] <= history[g])
    && (forall k :: 0 <= k < g ==> history[k] < history[g])
  }

  /** best is the best chromosome of the first generation that reached the maximum; it is legal and of that fitness. */
  ghost predicate BestSoFar(p: Problem, cfg: Config, history: seq<real>, bests: seq<seq<GeneData>>, best: Option<Best>)
    requires ProblemOk(p) && ConfigOk(cfg)
  {
    if history == [] then best.None?
    else
      && best.Some?
      && (exists g :: FirstMaximum(history, g) && g < |bests| && best.value.value == bests[g] &&
            best.value.fitness == history[g])
      && ChromosomeOk(p.candidates, p.lookup, best.value.value)
      && best.value.fitness == FitOf(p, cfg, best.value.value)
      && best.value.hardViolations == HardOf(p, best.value.value)
      && best.value.softPenalty == SoftOf(p, best.value.value)
  }

  lemma BestStep(p: Problem, cfg: Config, history: seq<real>, bests: seq<seq<GeneData>>, best: Option<Best>,
                 e: Evaluated, v: seq<GeneData>)
    requires ProblemOk(p) && ConfigOk(cfg) && BestSoFar(p, cfg, history, bests, best) && |bests| == |history|
    requires Reports(p, cfg, e, v) && ChromosomeOk(p.candidates, p.lookup, v)
    ensures BestSoFar(p, cfg, history + [e.fitness], bests + [v],
                      if best.None? || e.fitness > best.value.fitness
                      then Some(Best(v, e.fitness, e.hardViolations, e.softPenalty)) else best)
  {
    hide FitOf, HardOf, SoftOf, ChromosomeOk;
    var h := history + [e.fitness];
    assert h[|history|] == e.fitness;
    if best.None? || e.fitness > best.value.fitness {
      assert FirstMaximum(h, |history|);
    } else {
      var g :| FirstMaximum(history, g) && g < |bests| && best.value.value == bests[g] &&
        best.value.fitness == history[g];
      assert FirstMaximum(h, g) && (bests + [v])[g] == bests[g];
    }
  }

  /** Every population of the run is legal, the history entry is its best fitness, the other entry the mean of all, and
      its
      fittest chromosomes, as many as the elite holds, lead the next population. */
  ghost predicate Traced(p: Problem, cfg: Config, trace: seq<seq<seq<GeneData>>>, history: seq<real>,
                         avgHistory: seq<real>)
    requires ProblemOk(p) && ConfigOk(cfg)
  {
    && |trace| == |history| == |avgHistory|
    && (forall g :: 0 <= g < |trace| ==> Generation(p, cfg, trace[g], history[g], avgHistory[g]))
    && (trace != [] ==> forall x :: 0 <= x < |trace[0]| ==> Born(p, trace[0][x]))
    && (forall g :: 0 <= g && g + 1 < |trace| ==> EliteLeads(p, cfg, trace[g], trace[g + 1]))
  }

  ghost predicate Generation(p: Problem, cfg: Config, vals: seq<seq<GeneData>>, h: real, avg: real)
    requires ProblemOk(p) && ConfigOk(cfg)
  {
    |vals| == cfg.populationSize && Legal(p, vals) && IsBestOf(p, cfg, h, vals) && avg <= h &&
      IsMean(p, cfg, avg, vals)
  }

  /** The next population starts with the first of the ranking and goes on with bred pairs. */
  ghost predicate EliteLeads(p: Problem, cfg: Config, before: seq<seq<GeneData>>, after: seq<seq<GeneData>>)
    requires ProblemOk(p) && ConfigOk(cfg)
  {
    exists ranked :: Ranking(p, cfg, ranked, before) && LeadsWith(cfg, ranked, after) &&
      Offspring(p, cfg, ranked, after, Min(cfg.elitismCount, |ranked|))
  }

  ghost predicate LeadsWith(cfg: Config, ranked: seq<seq<GeneData>>, after: seq<seq<GeneData>>) {
    |after| == |ranked| && forall i :: 0 <= i < cfg.elitismCount && i < |after| ==> after[i] == ranked[i]
  }

  lemma TracedStep(p: Problem, cfg: Config, trace: seq<seq<seq<GeneData>>>, history: seq<real>, avgHistory: seq<real>,
                   vals: seq<seq<GeneData>>, h: real, avg: real)
    requires ProblemOk(p) && ConfigOk(cfg) && Traced(p, cfg, trace, history, avgHistory) &&
      Generation(p, cfg, vals, h, avg)
    requires if trace == [] then forall x :: 0 <= x < |vals| ==> Born(p, vals[x])
             else EliteLeads(p, cfg, trace[|trace| - 1], vals)
    ensures Traced(p, cfg, trace + [vals], history + [h], avgHistory + [avg])
  {
    hide Generation, EliteLeads, Born;
  }

  /** A best member that leads the next population bounds that population's best from below. */
  lemma HistoryStep(p: Problem, cfg: Config, h: real, h': real, before: seq<seq<GeneData>>, after: seq<seq<GeneData>>)
    requires ProblemOk(p) && ConfigOk(cfg) && cfg.elitismCount >= 1 && EliteLeads(p, cfg, before, after)
    requires IsBestOf(p, cfg, h, before) && IsBestOf(p, cfg, h', after) && |before| > 0
    ensures h <= h'
  {
    hide FitOf, Ranking, Offspring;
    var ranked :| Ranking(p, cfg, ranked, before) && LeadsWith(cfg, ranked, after) &&
      Offspring(p, cfg, ranked, after, Min(cfg.elitismCount, |ranked|));
    RankingSize(p, cfg, ranked, before);
    FirstIsBest(p, cfg, ranked, before);
    assert after[0] == ranked[0];
  }

  lemma RankingSize(p: Problem, cfg: Config, ranked: seq<seq<GeneData>>, vals: seq<seq<GeneData>>)
    requires ConfigOk(cfg) && Ranking(p, cfg, ranked, vals)
    ensures |ranked| == |vals|
  {
    SameMultiset(ranked, vals);
  }

  /** With elitism the best-fitness history never decreases. */
  lemma {:induction false} HistoryNeverDecreases(p: Problem, cfg: Config, trace: seq<seq<seq<GeneData>>>,
                                                 history: seq<real>, avgHistory: seq<real>, i: nat, j: nat)
    requires ProblemOk(p) && ConfigOk(cfg) && cfg.elitismCount >= 1
    requires Traced(p, cfg, trace, history, avgHistory) && i <= j < |history|
    ensures history[i] <= history[j]
    decreases j - i
  {
    hide IsBestOf, Legal, EliteLeads, Born;
    if i < j {
      HistoryNeverDecreases(p, cfg, trace, history, avgHistory, i, j - 1);
      assert EliteLeads(p, cfg, trace[j - 1], trace[j - 1 + 1]);
      assert Generation(p, cfg, trace[j - 1], history[j - 1], avgHistory[j - 1]) &&
        Generation(p, cfg, trace[j], history[j], avgHistory[j]);
      HistoryStep(p, cfg, history[j - 1], history[j], trace[j - 1], trace[j]);
    }
  }

  // ---------------------------------------------------------------- the run

  datatype GAResult = GAResult(
    best: Option<Best>,
    history: seq<real>,
    avgHistory: seq<real>,
    stagnatedEarly: bool,
    generationsRun: nat)

  /** How a run ends. */
  datatype Ending = Spent | Cancelled | Stalled | Perfect

  /** What one finished run guarantees; bests holds the best chromosome of every generation. */
  ghost predicate RunOk(p: Problem, cfg: Config, r: GAResult, trace: seq<seq<seq<GeneData>>>,
                        bests: seq<seq<GeneData>>, ending: Ending)
    requires ProblemOk(p) && ConfigOk(cfg)
  {
    && r.generationsRun == |r.history| <= cfg.generations
    && Traced(p, cfg, trace, r.history, r.avgHistory)
    && AreBests(p, cfg, trace, r.history, bests)
    && BestSoFar(p, cfg, r.history, bests, r.best)
    && (ending.Spent? ==> r.generationsRun == cfg.generations)
    && (r.stagnatedEarly <==> ending.Stalled?)
    && StopsInTime(p, r.history, bests, ending)
    && (ending.Perfect? ==> Flawless(p, cfg, r.history, r.best, bests[|r.history| - 1]))
  }

  /** Each is a chromosome of its generation's population and has the fitness that the history records. */
  ghost predicate AreBests(p: Problem, cfg: Config, trace: seq<seq<seq<GeneData>>>, history: seq<real>,
                           bests: seq<seq<GeneData>>)
    requires ConfigOk(cfg)
  {
    |bests| == |history| == |trace| &&
    forall g :: 0 <= g < |bests| ==> bests[g] in trace[g] && FitOf(p, cfg, bests[g]) == history[g]
  }

  /** In generation g the best chromosome violates a hard constraint and the baseline is 100 generations old. */
  ghost predicate StalledAt(p: Problem, history: seq<real>, bests: seq<seq<GeneData>>, g: nat)
    requires g < |history| == |bests|
  {
    HardOf(p, bests[g]) > 0 && g - BaselineAt(history[..g + 1]) >= 100
  }

  /** In generation g the best chromosome costs nothing. */
  ghost predicate PerfectAt(p: Problem, bests: seq<seq<GeneData>>, g: nat)
    requires g < |bests|
  {
    HardOf(p, bests[g]) == 0 && SoftOf(p, bests[g]) == 0
  }

  ghost predicate GoesOn(p: Problem, history: seq<real>, bests: seq<seq<GeneData>>, n: nat)
    requires n <= |history| == |bests|
  {
    forall g :: 0 <= g < n ==> !StalledAt(p, history, bests, g) && !PerfectAt(p, bests, g)
  }

  /** The run goes past a generation only if that is neither stalled nor perfect, and ends at the first that is. */
  ghost predicate StopsInTime(p: Problem, history: seq<real>, bests: seq<seq<GeneData>>, ending: Ending) {
    |bests| == |history| &&
    if history == [] then !ending.Stalled? && !ending.Perfect?
    else
      var n := |history| - 1;
      && GoesOn(p, history, bests, n)
      && (ending.Stalled? <==> StalledAt(p, history, bests, n))
      && (ending.Perfect? <==> PerfectAt(p, bests, n))
  }

  lemma StopStep(p: Problem, history: seq<real>, bests: seq<seq<GeneData>>, h: real, v: seq<GeneData>)
    requires |history| == |bests| && GoesOn(p, history, bests, |history|)
    ensures GoesOn(p, history + [h], bests + [v], |history|)
  {
    hide BaselineAt, HardOf, SoftOf;
    forall g | 0 <= g < |history|
      ensures StalledAt(p, history + [h], bests + [v], g) <==> StalledAt(p, history, bests, g)
      ensures PerfectAt(p, bests + [v], g) <==> PerfectAt(p, bests, g) {
      assert (history + [h])[..g + 1] == history[..g + 1];
    }
  }

  /** What the body's three tests say of generation |history| - 1. */
  lemma StopHere(p: Problem, cfg: Config, history: seq<real>, bests: seq<seq<GeneData>>, counter: nat,
                 recorded: Option<real>, e: Evaluated)
    requires ConfigOk(cfg) && Baseline(history, counter, recorded) && history != [] && |bests| == |history|
    requires Reports(p, cfg, e, bests[|bests| - 1]) && GoesOn(p, history, bests, |history| - 1)
    ensures var n := |history| - 1; var stalled, perfect := counter >= STAGNATION_WINDOW && e.hardViolations > 0,
                                                            e.hardViolations == 0 && e.softPenalty == 0;
      && (stalled ==> StopsInTime(p, history, bests, Stalled))
      && (perfect ==> StopsInTime(p, history, bests, Perfect))
      && (!stalled && !perfect ==> GoesOn(p, history, bests, |history|))
  {
    hide BaselineAt, HardOf, SoftOf, FitOf;
    assert history[..|history| - 1 + 1] == history;
  }

  lemma NotStopped(p: Problem, history: seq<real>, bests: seq<seq<GeneData>>, ending: Ending)
    requires |bests| == |history| && GoesOn(p, history, bests, |history|) && !ending.Stalled? && !ending.Perfect?
    ensures StopsInTime(p, history, bests, ending)
  {
    hide StalledAt, PerfectAt;
  }

  /** The last generation's best chromosome costs nothing at all, so nothing can beat what the run reports. */
  ghost predicate Flawless(p: Problem, cfg: Config, history: seq<real>, best: Option<Best>, last: seq<GeneData>)
    requires ConfigOk(cfg)
  {
    && HardOf(p, last) == 0 && SoftOf(p, last) == 0
    && history != [] && best.Some?
    && best.value.fitness == history[|history| - 1] == FitOf(p, cfg, last) == 1.0
    && forall v :: FitOf(p, cfg, v) <= best.value.fitness
  }

  lemma FitnessAtMostOne(hard: nat, soft: nat, wH: real, wS: real)
    requires wH >= 0.0 && wS >= 0.0
    ensures FitnessOf(hard, soft, wH, wS) <= 1.0
    ensures hard == 0 && soft == 0 ==> FitnessOf(hard, soft, wH, wS) == 1.0
  {
    var penalty := hard as real * wH + soft as real * wS;
    assert hard as real * wH >= 0.0 && soft as real * wS >= 0.0;
    assert 1.0 / (1.0 + penalty) <= 1.0;
  }

  lemma PerfectMeans(p: Problem, cfg: Config, history: seq<real>, bests: seq<seq<GeneData>>, best: Option<Best>,
                     e: Evaluated, v: seq<GeneData>)
    requires ProblemOk(p) && ConfigOk(cfg) && BestSoFar(p, cfg, history, bests, best) && history != []
    requires e.fitness == history[|history| - 1] && Reports(p, cfg, e, v) && e.hardViolations == 0 && e.softPenalty == 0
    ensures Flawless(p, cfg, history, best, v)
  {
    hide HardOf, SoftOf, FitnessOf, ChromosomeOk;
    forall w ensures FitOf(p, cfg, w) <= 1.0 {
      FitnessAtMostOne(HardOf(p, w), SoftOf(p, w), cfg.hardPenaltyWeight, cfg.softPenaltyWeight);
    }
    FitnessAtMostOne(0, 0, cfg.hardPenaltyWeight, cfg.softPenaltyWeight);
  }

  /** A stalled generation is at least the 101st, violates a hard constraint, and none of the last 100 generations
      gained more than a millionth on the entry before them that the test compares with. */
  lemma StagnationMeans(p: Problem, cfg: Config, trace: seq<seq<seq<GeneData>>>, history: seq<real>,
                        bests: seq<seq<GeneData>>, g: nat)
    returns (b: nat)
    requires ConfigOk(cfg) && AreBests(p, cfg, trace, history, bests) && g < |history|
    requires StalledAt(p, history, bests, g)
    ensures 100 <= g && b <= g - 100 && FitOf(p, cfg, bests[g]) == history[g] && HardOf(p, bests[g]) > 0
    ensures forall k :: b < k <= g ==> history[k] - history[b] <= 0.000001
    ensures b > 0 ==> exists a :: 0 <= a < b && history[b] - history[a] > 0.000001
  {
    hide FitOf, HardOf, BaselineAt;
    var h := history[..g + 1];
    BaselineMeans(h);
    b := BaselineAt(h);
    forall k | b < k <= g ensures history[k] - history[b] <= 0.000001 { assert h[k] - h[b] <= 0.000001; }
    if b > 0 {
      var a := BaselineAt(h[..b]);
      assert h[b] - h[a] > 0.000001 && h[a] == history[a];
    }
  }

  /** A run whose best chromosomes all violate a hard constraint keeps gaining: every 100 generations that it goes past
      are worth more than a millionth of fitness. */
  lemma {:induction false} GoingOnGains(p: Problem, history: seq<real>, bests: seq<seq<GeneData>>, g: nat)
    requires |bests| == |history| && g < |history| && GoesOn(p, history, bests, g + 1)
    requires forall k :: 0 <= k <= g ==> HardOf(p, bests[k]) > 0
    ensures var b := BaselineAt(history[..g + 1]);
      g - b < 100 && history[b] >= history[0] + b as real * 0.00000001
  {
    hide HardOf, SoftOf, BaselineAt;
    var h := history[..g + 1];
    var b := BaselineAt(h);
    assert !StalledAt(p, history, bests, g);
    BaselineMeans(h);
    if b > 0 {
      GoingOnGains(p, history, bests, b - 1);
      assert h[..b] == history[..b - 1 + 1];
      var a := BaselineAt(h[..b]);
      assert h[b] == history[b] && h[a] == history[a];
      assert b - a <= 100;
    }
  }

  /** With weights that are not negative no fitness is above 1 or below 0, so such a run is over after a hundred million
      generations, whatever its budget. */
  lemma ViolatingRunEnds(p: Problem, cfg: Config, r: GAResult, trace: seq<seq<seq<GeneData>>>,
                         bests: seq<seq<GeneData>>, ending: Ending)
    requires ProblemOk(p) && ConfigOk(cfg) && RunOk(p, cfg, r, trace, bests, ending)
    requires forall k :: 0 <= k < |bests| ==> HardOf(p, bests[k]) > 0
    ensures r.generationsRun <= 100_000_101
  {
    hide HardOf, SoftOf, BaselineAt, FitOf, Traced, BestSoFar, Flawless, StalledAt, PerfectAt;
    var n := r.generationsRun;
    if n > 1 {
      var g := n - 2;
      GoingOnGains(p, r.history, bests, g);
      var b := BaselineAt(r.history[..g + 1]);
      FitnessRange(p, cfg, bests[b]);
      FitnessRange(p, cfg, bests[0]);
      assert r.history[b] <= 1.0 && r.history[0] >= 0.0;
    }
  }

  /** A run whose first best chromosome is never beaten by more than a millionth, and that never loses its violations,
      ends with the 101st generation as stagnated, unless it is cancelled or its budget is smaller. */
  lemma FlatRunStops(p: Problem, cfg: Config, r: GAResult, trace: seq<seq<seq<GeneData>>>, bests: seq<seq<GeneData>>,
                     ending: Ending)
    requires ProblemOk(p) && ConfigOk(cfg) && RunOk(p, cfg, r, trace, bests, ending)
    requires forall k :: 0 <= k < |bests| ==> HardOf(p, bests[k]) > 0
    requires forall k :: 0 <= k < |r.history| ==> r.history[k] - r.history[0] <= 0.000001
    ensures r.generationsRun <= 101
    ensures r.stagnatedEarly <==> r.generationsRun == 101
    ensures !ending.Cancelled? && cfg.generations >= 101 ==> r.generationsRun == 101 && r.stagnatedEarly
  {
    hide HardOf, SoftOf, BaselineAt, FitOf, Traced, BestSoFar, Flawless, AreBests;
    var h := r.history;
    forall g | 0 <= g < |h| ensures StalledAt(p, h, bests, g) <==> g >= 100 {
      FirstStays(h[..g + 1]);
    }
    assert |h| > 100 ==> StalledAt(p, h, bests, 100);
  }

  lemma {:induction false} FirstStays(history: seq<real>)
    requires history != [] && forall k :: 0 <= k < |history| ==> history[k] - history[0] <= 0.000001
    ensures BaselineAt(history) == 0
  {
    if |history| > 1 { FirstStays(history[..|history| - 1]); }
  }

  lemma FitnessRange(p: Problem, cfg: Config, v: seq<GeneData>)
    requires ConfigOk(cfg)
    ensures 0.0 <= FitOf(p, cfg, v) <= 1.0
  {
    hide HardOf, SoftOf;
    FitnessAtMostOne(HardOf(p, v), SoftOf(p, v), cfg.hardPenaltyWeight, cfg.softPenaltyWeight);
  }

  /** Generations until the budget is spent, the run is cancelled, progress stalls or a perfect timetable appears. */
  method RunGA(p: Problem, cfg: Config)
    returns (r: GAResult, ghost trace: seq<seq<seq<GeneData>>>, ghost bests: seq<seq<GeneData>>,
             ghost ending: Ending)
    requires ProblemOk(p) && ConfigOk(cfg)
    ensures RunOk(p, cfg, r, trace, bests, ending)
    ensures |r.history| == |r.avgHistory| == |bests| == r.generationsRun <= cfg.generations
    ensures StopsInTime(p, r.history, bests, ending) && BestSoFar(p, cfg, r.history, bests, r.best)
    ensures cfg.elitismCount >= 1 ==> forall i, j :: 0 <= i <= j < |r.history| ==> r.history[i] <= r.history[j]
  {
    hide *;
    PopulationNotEmpty(cfg);
    NothingRecorded(p, cfg);
    ghost var vals;
    var population;
    population, vals := InitialPopulation(p, cfg);
    var history: seq<real>, avgHistory: seq<real> := [], [];
    var best: Option<Best> := None;
    var stagnationCounter: nat, recorded: Option<real>, stagnatedEarly := 0, None, false;
    trace, bests, ending := [], [], Spent;
    var generationsRun := 0;
    var gen := 0;
    while gen < cfg.generations
      invariant |history| == |trace| == |bests| == gen == generationsRun <= cfg.generations
      invariant !stagnatedEarly && ending == Spent
      invariant |population| == |vals| == cfg.populationSize && Legal(p, vals)
      invariant forall i :: 0 <= i < |population| ==> Value(population[i]) == vals[i]
      invariant Traced(p, cfg, trace, history, avgHistory) && AreBests(p, cfg, trace, history, bests)
      invariant BestSoFar(p, cfg, history, bests, best) && GoesOn(p, history, bests, gen)
      invariant Baseline(history, stagnationCounter, recorded)
      invariant if gen == 0 then forall x :: 0 <= x < |vals| ==> Born(p, vals[x])
                else EliteLeads(p, cfg, trace[gen - 1], vals)
    {
      var cancelled: bool := *;
      if cancelled {
        ending := Cancelled;
        NotStopped(p, history, bests, ending);
        break;
      }
      generationsRun := gen + 1;
      var es, avgFitness;
      ghost var evals;
      es, avgFitness, evals := EvaluateGeneration(population, p, cfg, vals);
      var e := es[0];
      ghost var v := evals[0];
      GenerationEvaluated(p, cfg, vals, evals, e, avgFitness);
      TracedStep(p, cfg, trace, history, avgHistory, vals, e.fitness, avgFitness);
      BestStep(p, cfg, history, bests, best, e, v);
      BaselineStep(history, stagnationCounter, recorded, e.fitness);
      BestIsFirst(p, cfg, trace, history, bests, vals, evals, e.fitness);
      StopStep(p, history, bests, e.fitness, v);
      history, avgHistory, trace := history + [e.fitness], avgHistory + [avgFitness], trace + [vals];
      bests := bests + [v];
      gen := gen + 1;
      if best.None? || e.fitness > best.value.fitness {
        best := Some(Best(Value(e.chromosome), e.fitness, e.hardViolations, e.softPenalty));
      }
      if recorded.None? || e.fitness - recorded.value > STAGNATION_THRESHOLD {
        stagnationCounter, recorded := 0, Some(e.fitness);
      } else {
        stagnationCounter := stagnationCounter + 1;
      }
      StopHere(p, cfg, history, bests, stagnationCounter, recorded, e);
      if stagnationCounter >= STAGNATION_WINDOW && e.hardViolations > 0 {
        stagnatedEarly, ending := true, Stalled;
        break;
      }
      if e.hardViolations == 0 && e.softPenalty == 0 {
        PerfectMeans(p, cfg, history, bests, best, e, v);
        ending := Perfect;
        break;
      }
      ghost var before := vals;
      EvaluationsAre(p, es, evals);
      population, vals := NextPopulation(es, p, cfg, evals);
      EliteSurvives(p, cfg, before, evals, vals);
    }
    r := GAResult(best, history, avgHistory, stagnatedEarly, generationsRun);
    if ending == Spent { NotStopped(p, history, bests, ending); }
    RunEnds(p, cfg, r, trace, bests, ending);
  }

  lemma PopulationNotEmpty(cfg: Config)
    requires ConfigOk(cfg)
    ensures cfg.populationSize > 0
  {
  }

  lemma GenerationEvaluated(p: Problem, cfg: Config, vals: seq<seq<GeneData>>, evals: seq<seq<GeneData>>, e: Evaluated,
                            avg: real)
    requires ProblemOk(p) && ConfigOk(cfg) && |vals| == cfg.populationSize && Legal(p, vals)
    requires evals != [] && Ranking(p, cfg, evals, vals) && Legal(p, evals) && Reports(p, cfg, e, evals[0]) &&
      avg <= e.fitness && IsMean(p, cfg, avg, vals)
    ensures Generation(p, cfg, vals, e.fitness, avg) && ChromosomeOk(p.candidates, p.lookup, evals[0])
    ensures FitOf(p, cfg, evals[0]) == e.fitness
  {
    FirstIsBest(p, cfg, evals, vals);
    hide Ranking, ChromosomeOk, IsBestOf, IsMean, FitOf, HardOf, SoftOf;
  }

  lemma BestIsFirst(p: Problem, cfg: Config, trace: seq<seq<seq<GeneData>>>, history: seq<real>,
                    bests: seq<seq<GeneData>>, vals: seq<seq<GeneData>>, evals: seq<seq<GeneData>>, h: real)
    requires ConfigOk(cfg) && AreBests(p, cfg, trace, history, bests)
    requires evals != [] && Ranking(p, cfg, evals, vals) && FitOf(p, cfg, evals[0]) == h
    ensures AreBests(p, cfg, trace + [vals], history + [h], bests + [evals[0]])
  {
    SameMultiset(evals, vals);
    hide FitOf, Ranking;
    assert evals[0] in Elements(evals);
    assert evals[0] in Elements(vals);
  }

  lemma EvaluationsAre(p: Problem, es: seq<Evaluated>, evals: seq<seq<GeneData>>)
    requires ProblemOk(p) && |es| == |evals| && Legal(p, evals)
    ensures Evaluations(p, es, evals)
  {
  }

  lemma RunEnds(p: Problem, cfg: Config, r: GAResult, trace: seq<seq<seq<GeneData>>>, bests: seq<seq<GeneData>>,
                ending: Ending)
    requires ProblemOk(p) && ConfigOk(cfg)
    requires r.generationsRun == |r.history| <= cfg.generations && Traced(p, cfg, trace, r.history, r.avgHistory)
    requires AreBests(p, cfg, trace, r.history, bests) && BestSoFar(p, cfg, r.history, bests, r.best)
    requires (ending.Spent? ==> r.generationsRun == cfg.generations) && (r.stagnatedEarly <==> ending.Stalled?)
    requires StopsInTime(p, r.history, bests, ending)
    requires ending.Perfect? ==> bests != [] && Flawless(p, cfg, r.history, r.best, bests[|bests| - 1])
    ensures RunOk(p, cfg, r, trace, bests, ending) && |r.history| == |r.avgHistory|
    ensures cfg.elitismCount >= 1 ==> forall i, j :: 0 <= i <= j < |r.history| ==> r.history[i] <= r.history[j]
  {
    hide Generation, EliteLeads, Born, BestSoFar, StopsInTime, Flawless, FitOf;
    if cfg.elitismCount >= 1 {
      forall i, j | 0 <= i <= j < |r.history| ensures r.history[i] <= r.history[j] {
        HistoryNeverDecreases(p, cfg, trace, r.history, r.avgHistory, i, j);
      }
    }
  }

  lemma NothingRecorded(p: Problem, cfg: Config)
    requires ProblemOk(p) && ConfigOk(cfg)
    ensures Traced(p, cfg, [], [], []) && BestSoFar(p, cfg, [], [], None) && Baseline([], 0, None)
    ensures AreBests(p, cfg, [], [], []) && GoesOn(p, [], [], 0)
  {
  }

  lemma EliteSurvives(p: Problem, cfg: Config, before: seq<seq<GeneData>>, evals: seq<seq<GeneData>>,
                      after: seq<seq<GeneData>>)
    requires ProblemOk(p) && ConfigOk(cfg) && Ranking(p, cfg, evals, before) && |after| == |evals|
    requires forall i :: 0 <= i < |after| && i < cfg.elitismCount ==> after[i] == evals[i]
    requires Offspring(p, cfg, evals, after, Min(cfg.elitismCount, |evals|))
    ensures EliteLeads(p, cfg, before, after)
  {
    hide Ranking, Offspring;
    assert LeadsWith(cfg, evals, after);
  }
}
