/**
 * The generational loop: score, sort by fitness, keep a share of the
 * population as parents, and breed a new population from them by crossover
 * and mutation.
 *
 * The fitness function, the parent choices and every draw of crossover and
 * mutation are parameters. A run either returns, panics (an `unwrap` on an
 * empty collection, a panicking mutation) or never returns (a mutation whose
 * rejection loop never ends).
 */
module Evolution {
  import opened Genes
  import opened LinkGraph
  import opened Crossover
  import opened Mutation

  /** The settings the population reads. */
  datatype Config = Config(min: real, max: real, survivalThreshold: real,
                           numInputs: nat, numOutputs: nat, populationSize: nat)

  /** The values the program is configured with. */
  function DefaultConfig(): Config {
    Config(-5.0, 5.0, 0.2, 3, 3, 150)
  }

  /** How a call ends. */
  datatype Ending<T> = Returns(value: T) | Panics | Hangs

  // ---------------------------------------------------------------------
  // sort_individuals_by_fitness

  predicate SortedByFitness(s: seq<Individual>) {
    forall i, j :: 0 <= i < j < |s| ==> s[i].fitness >= s[j].fitness
  }

  /** `x` placed after every leading individual at least as fit, so equal fitness keeps arrival order. */
  function InsertByFitness(x: Individual, s: seq<Individual>): (r: seq<Individual>)
    ensures multiset(r) == multiset(s) + multiset{x}
    decreases |s|
  {
    if |s| == 0 then [x]
    else if s[0].fitness >= x.fitness then
      assert s == [s[0]] + s[1..];
      [s[0]] + InsertByFitness(x, s[1..])
    else [x] + s
  }

  /** Every individual of `s` is at most as fit as `bound`. */
  predicate AtMostAsFit(s: seq<Individual>, bound: real) {
    forall k :: 0 <= k < |s| ==> s[k].fitness <= bound
  }

  /** Insertion adds only `x`, so a bound on every fitness survives it. */
  lemma InsertKeepsBound(x: Individual, s: seq<Individual>, bound: real)
    requires AtMostAsFit(s, bound) && x.fitness <= bound
    ensures AtMostAsFit(InsertByFitness(x, s), bound)
  {
    var r := InsertByFitness(x, s);
    forall j | 0 <= j < |r|
      ensures r[j].fitness <= bound
    {
      assert r[j] in multiset(r);
      if r[j] != x {
        assert r[j] in multiset(s);
        var i :| 0 <= i < |s| && s[i] == r[j];
      }
    }
  }

  /** Inserting into a sequence sorted from the fittest down keeps it sorted. */
  lemma {:induction false} InsertKeepsSorted(x: Individual, s: seq<Individual>)
    requires SortedByFitness(s)
    ensures SortedByFitness(InsertByFitness(x, s))
    decreases |s|
  {
    if |s| > 0 && s[0].fitness >= x.fitness {
      var rest := InsertByFitness(x, s[1..]);
      InsertKeepsSorted(x, s[1..]);
      assert AtMostAsFit(s[1..], s[0].fitness);
      InsertKeepsBound(x, s[1..], s[0].fitness);
      assert InsertByFitness(x, s) == [s[0]] + rest;
    }
  }

  /**
   * `sort_individuals_by_fitness`: the individuals from the fittest down,
   * as a stable sort leaves them.
   */
  function SortIndividualsByFitness(individuals: seq<Individual>): (sorted: seq<Individual>)
    ensures SortedByFitness(sorted)
    ensures multiset(sorted) == multiset(individuals)
    decreases |individuals|
  {
    if |individuals| == 0 then []
    else
      var n := |individuals| - 1;
      assert individuals == individuals[..n] + [individuals[n]];
      var sorted := SortIndividualsByFitness(individuals[..n]);
      InsertKeepsSorted(individuals[n], sorted);
      InsertByFitness(individuals[n], sorted)
  }

  /** The individuals of `s` whose fitness is exactly `f`, in their order in `s`. */
  function WithFitness(s: seq<Individual>, f: real): (r: seq<Individual>)
    ensures forall x {:trigger x in r} :: x in r <==> x in s && x.fitness == f
    ensures |r| <= |s|
  {
    if |s| == 0 then []
    else (if s[0].fitness == f then [s[0]] else []) + WithFitness(s[1..], f)
  }

  lemma {:induction false} WithFitnessAppend(a: seq<Individual>, b: seq<Individual>, f: real)
    ensures WithFitness(a + b, f) == WithFitness(a, f) + WithFitness(b, f)
    decreases |a|
  {
    if |a| > 0 {
      assert (a + b)[1..] == a[1..] + b;
      WithFitnessAppend(a[1..], b, f);
    } else {
      assert a + b == b;
    }
  }

  /** A sequence with no individual of fitness `f` has an empty class for `f`. */
  lemma {:induction false} WithFitnessNone(s: seq<Individual>, f: real)
    requires forall k :: 0 <= k < |s| ==> s[k].fitness != f
    ensures WithFitness(s, f) == []
    decreases |s|
  {
    if |s| > 0 {
      WithFitnessNone(s[1..], f);
    }
  }

  lemma WithFitnessCons(y: Individual, s: seq<Individual>, f: real)
    ensures WithFitness([y] + s, f) == (if y.fitness == f then [y] else []) + WithFitness(s, f)
  {
    assert ([y] + s)[1..] == s;
  }

  /** Insertion puts `x` after every individual of its own fitness. */
  lemma {:induction false} InsertStable(x: Individual, s: seq<Individual>, f: real)
    requires SortedByFitness(s)
    ensures WithFitness(InsertByFitness(x, s), f) == WithFitness(s, f) + (if x.fitness == f then [x] else [])
    decreases |s|
  {
    var tail := if x.fitness == f then [x] else [];
    if |s| == 0 {
      WithFitnessSingle(x, f);
    } else if s[0].fitness >= x.fitness {
      var head := if s[0].fitness == f then [s[0]] else [];
      assert SortedByFitness(s[1..]);
      calc {
        WithFitness(InsertByFitness(x, s), f);
        { InsertUnfold(x, s); }
        WithFitness([s[0]] + InsertByFitness(x, s[1..]), f);
        { WithFitnessCons(s[0], InsertByFitness(x, s[1..]), f); }
        head + WithFitness(InsertByFitness(x, s[1..]), f);
        { InsertStable(x, s[1..], f); }
        head + (WithFitness(s[1..], f) + tail);
        { WithFitnessCons(s[0], s[1..], f); assert s == [s[0]] + s[1..]; }
        WithFitness(s, f) + tail;
      }
    } else {
      InsertUnfold(x, s);
      InsertFront(x, s, f);
    }
  }

  lemma InsertUnfold(x: Individual, s: seq<Individual>)
    requires |s| > 0
    ensures InsertByFitness(x, s) == if s[0].fitness >= x.fitness then [s[0]] + InsertByFitness(x, s[1..]) else [x] + s
  {
  }

  /** `x` fitter than the whole of `s` goes in front, and is still last of its class. */
  lemma InsertFront(x: Individual, s: seq<Individual>, f: real)
    requires SortedByFitness(s) && |s| > 0 && s[0].fitness < x.fitness
    ensures WithFitness([x] + s, f) == WithFitness(s, f) + (if x.fitness == f then [x] else [])
  {
    WithFitnessCons(x, s, f);
    if x.fitness == f {
      WithFitnessNone(s, f);
    }
  }

  /**
   * `sort_by` is a stable sort: for every fitness value, the individuals
   * with that fitness come out in the order they went in.
   */
  lemma {:induction false} SortIsStable(individuals: seq<Individual>, f: real)
    ensures WithFitness(SortIndividualsByFitness(individuals), f) == WithFitness(individuals, f)
    decreases |individuals|
  {
    if |individuals| > 0 {
      var n := |individuals| - 1;
      var init, x := individuals[..n], individuals[n];
      var sorted := SortIndividualsByFitness(init);
      var tail := if x.fitness == f then [x] else [];
      calc {
        WithFitness(SortIndividualsByFitness(individuals), f);
        { SortUnfold(individuals); }
        WithFitness(InsertByFitness(x, sorted), f);
        { InsertStable(x, sorted, f); }
        WithFitness(sorted, f) + tail;
        { SortIsStable(init, f); }
        WithFitness(init, f) + tail;
        { WithFitnessSnoc(individuals, f); }
        WithFitness(individuals, f);
      }
    }
  }

  lemma SortUnfold(individuals: seq<Individual>)
    requires |individuals| > 0
    ensures var n := |individuals| - 1;
      SortIndividualsByFitness(individuals) == InsertByFitness(individuals[n], SortIndividualsByFitness(individuals[..n]))
  {
  }

  /** The last individual closes its own class. */
  lemma WithFitnessSnoc(s: seq<Individual>, f: real)
    requires |s| > 0
    ensures var n := |s| - 1;
      WithFitness(s, f) == WithFitness(s[..n], f) + (if s[n].fitness == f then [s[n]] else [])
  {
    var n := |s| - 1;
    assert s == s[..n] + [s[n]];
    WithFitnessAppend(s[..n], [s[n]], f);
    WithFitnessSingle(s[n], f);
  }

  lemma WithFitnessSingle(x: Individual, f: real)
    ensures WithFitness([x], f) == if x.fitness == f then [x] else []
  {
    assert [x][1..] == [];
  }

  /**
   * Descending order together with the order inside each fitness class
   * determines a sequence: any sequence sorted from the fittest down whose
   * classes match those of `individuals` is the result of the sort.
   */
  lemma SortedStableIsSort(r: seq<Individual>, individuals: seq<Individual>)
    requires SortedByFitness(r)
    requires forall f :: WithFitness(r, f) == WithFitness(individuals, f)
    ensures r == SortIndividualsByFitness(individuals)
  {
    var t := SortIndividualsByFitness(individuals);
    forall f
      ensures WithFitness(r, f) == WithFitness(t, f)
    {
      SortIsStable(individuals, f);
    }
    SortedSameClasses(r, t);
  }

  /** Two descending sequences with the same fitness classes are equal. */
  lemma {:induction false} SortedSameClasses(r: seq<Individual>, t: seq<Individual>)
    requires SortedByFitness(r) && SortedByFitness(t)
    requires forall f :: WithFitness(r, f) == WithFitness(t, f)
    ensures r == t
    decreases |r|
  {
    if |r| == 0 && |t| > 0 {
      HeadInClass(t);
      assert false;
    } else if |r| > 0 && |t| == 0 {
      HeadInClass(r);
      assert false;
    } else if |r| > 0 {
      HeadsAgree(r, t);
      HeadsAgree(t, r);
      var f := r[0].fitness;
      assert t[0].fitness == f;
      assert WithFitness(r, f) == [r[0]] + WithFitness(r[1..], f);
      assert WithFitness(t, f) == [t[0]] + WithFitness(t[1..], f);
      assert r[0] == WithFitness(r, f)[0] == WithFitness(t, f)[0] == t[0];
      forall h
        ensures WithFitness(r[1..], h) == WithFitness(t[1..], h)
      {
        var a, b := WithFitness(r, h), WithFitness(t, h);
        if h == f {
          assert a == [r[0]] + WithFitness(r[1..], h);
          assert b == [t[0]] + WithFitness(t[1..], h);
          assert a[1..] == WithFitness(r[1..], h);
          assert b[1..] == WithFitness(t[1..], h);
        } else {
          assert a == WithFitness(r[1..], h);
          assert b == WithFitness(t[1..], h);
        }
      }
      SortedSameClasses(r[1..], t[1..]);
      assert r == [r[0]] + r[1..];
      assert t == [t[0]] + t[1..];
    }
  }

  /** The first individual belongs to the class of its own fitness. */
  lemma HeadInClass(s: seq<Individual>)
    requires |s| > 0
    ensures s[0] in WithFitness(s, s[0].fitness)
  {
  }

  /** The fittest of `t` is at least as fit as the fittest of `r` when their classes agree. */
  lemma HeadsAgree(r: seq<Individual>, t: seq<Individual>)
    requires SortedByFitness(r) && |r| > 0 && |t| > 0
    requires forall f :: WithFitness(r, f) == WithFitness(t, f)
    ensures t[0].fitness <= r[0].fitness
  {
    var g := t[0].fitness;
    assert t[0] in WithFitness(t, g);
    assert t[0] in WithFitness(r, g);
    var k :| 0 <= k < |r| && r[k] == t[0];
  }

  // ---------------------------------------------------------------------
  // reproduce

  /** The least integer at or above `x`. */
  function Ceil(x: real): (c: int)
    ensures (c - 1) as real < x <= c as real
  {
    -((-x).Floor)
  }

  /** `(survival_threshold * len).ceil() as usize`: the cast takes a negative value to zero. */
  function Cutoff(threshold: real, len: nat): (c: nat)
    ensures threshold * len as real <= c as real
    ensures c > 0 ==> (c - 1) as real < threshold * len as real
  {
    var x := Ceil(threshold * len as real);
    if x < 0 then 0 else x
  }

  /** A threshold in (0, 1] keeps at least one and at most all individuals. */
  lemma CutoffBounds(threshold: real, len: nat)
    requires 0.0 < threshold <= 1.0 && len > 0
    ensures 1 <= Cutoff(threshold, len) <= len
  {
    var c := Cutoff(threshold, len);
    assert threshold * len as real <= len as real;
    assert 0.0 < threshold * len as real;
  }

  /** With the configured threshold 0.2, a population of 150 keeps 30 parents. */
  lemma DefaultCutoff()
    ensures Cutoff(DefaultConfig().survivalThreshold, DefaultConfig().populationSize) == 30
  {
    assert 0.2 * 150.0 == 30.0;
  }

  /** The parents `reproduce` pops: the last `cutoff` individuals, the last one first. */
  function Survivors(individuals: seq<Individual>, cutoff: nat): (s: seq<Individual>)
    requires cutoff <= |individuals|
    ensures |s| == cutoff
    ensures forall j :: 0 <= j < cutoff ==> s[j] == individuals[|individuals| - 1 - j]
  {
    seq(cutoff, j requires 0 <= j < cutoff => individuals[|individuals| - 1 - j])
  }

  /**
   * The parents come from the tail of the vector. After the sort from the
   * fittest down, they are the least fit individuals, from the least fit up.
   */
  lemma SurvivorsAreLeastFit(individuals: seq<Individual>, cutoff: nat)
    requires SortedByFitness(individuals) && cutoff <= |individuals|
    ensures var s := Survivors(individuals, cutoff);
      forall j, k :: 0 <= j < cutoff && 0 <= k < |individuals| - cutoff ==>
        s[j].fitness <= individuals[k].fitness
    ensures var s := Survivors(individuals, cutoff);
      forall i, j :: 0 <= i < j < cutoff ==> s[i].fitness <= s[j].fitness
  {
  }

  /** The random choices behind one offspring: both parents, the crossover coins and the mutation. */
  datatype SpawnDraws = SpawnDraws(first: nat, second: nat, cross: CrossoverDraws,
                                   kind: MutationKind, mutation: MutationDraws)

  /** `choose` over the parents, the draw taken modulo their number. */
  function Choose(parents: seq<Individual>, draw: nat): (p: Individual)
    requires |parents| > 0
    ensures p in parents
  {
    parents[draw % |parents|]
  }

  /** One offspring under genome id `id`: crossover of two chosen parents, then one mutation. */
  ghost function Spawn(parents: seq<Individual>, d: SpawnDraws, id: int): (m: Mutated)
    requires |parents| > 0
    ensures m.genome.id == id
  {
    var dominant := Choose(parents, d.first);
    var recessive := Choose(parents, d.second);
    var offspring := Offspring(dominant.genome, recessive.genome, d.cross, id);
    MutateKeepsIdentity(offspring, d.kind, d.mutation);
    MutateSpec(offspring, d.kind, d.mutation)
  }

  /** The offspring has the arity of its dominant parent. */
  lemma SpawnArity(parents: seq<Individual>, d: SpawnDraws, id: int)
    requires |parents| > 0
    ensures var m := Spawn(parents, d, id).genome;
      m.numInputs == Choose(parents, d.first).genome.numInputs &&
      m.numOutputs == Choose(parents, d.first).genome.numOutputs
  {
    var dominant := Choose(parents, d.first);
    var offspring := Offspring(dominant.genome, Choose(parents, d.second).genome, d.cross, id);
    MutateKeepsIdentity(offspring, d.kind, d.mutation);
  }

  /** The individuals share one arity. */
  predicate SameArity(parents: seq<Individual>, ni: int, no: int) {
    forall j :: 0 <= j < |parents| ==> parents[j].genome.numInputs == ni && parents[j].genome.numOutputs == no
  }

  /** The offspring so far, extended by one mutated genome unless its mutation panicked or never finished. */
  function Append(born: seq<Individual>, m: Mutated): (r: Ending<seq<Individual>>)
    ensures r.Returns? <==> m.outcome == Applied || m.outcome == Skipped
    ensures r.Panics? <==> m.outcome == Panicked
    ensures r.Returns? ==> |r.value| == |born| + 1
    ensures r.Returns? ==> r.value[..|born|] == born && r.value[|born|] == Individual(m.genome, 0.0)
  {
    match m.outcome
    case Panicked => Panics
    case Unfinished => Hangs
    case _ => Returns(born + [Individual(m.genome, 0.0)])
  }

  /** `f(0), ..., f(n - 1)`, one element at a time. */
  function Tabulate<T>(f: nat --> T, n: nat): (s: seq<T>)
    requires forall k: nat :: k < n ==> f.requires(k)
    ensures |s| == n
    decreases n
  {
    if n == 0 then [] else Tabulate(f, n - 1) + [f(n - 1)]
  }

  lemma {:induction false} TabulateAt<T>(f: nat --> T, n: nat, k: nat)
    requires forall j: nat :: j < n ==> f.requires(j)
    requires k < n
    ensures Tabulate(f, n)[k] == f(k)
    decreases n
  {
    if k < n - 1 {
      TabulateAt(f, n - 1, k);
    }
  }

  /** One spawn per draw, offspring `k` under genome id `lastId + k + 1`. */
  ghost function Spawned(parents: seq<Individual>, draws: seq<SpawnDraws>, lastId: int): (ms: seq<Mutated>)
    requires |parents| > 0
    ensures |ms| == |draws|
  {
    Tabulate(SpawnEach(parents, draws, lastId), |draws|)
  }

  /** The k-th breeding of a round, as a function of k. */
  ghost function SpawnEach(parents: seq<Individual>, draws: seq<SpawnDraws>, lastId: int): (f: nat --> Mutated)
    requires |parents| > 0
    ensures forall k: nat :: k < |draws| ==> f.requires(k)
  {
    (k: nat) requires k < |draws| => Spawn(parents, draws[k], lastId + k + 1)
  }

  lemma SpawnEachAt(parents: seq<Individual>, draws: seq<SpawnDraws>, lastId: int, k: nat)
    requires |parents| > 0 && k < |draws|
    ensures SpawnEach(parents, draws, lastId)(k) == Spawn(parents, draws[k], lastId + k + 1)
  {
  }

  /** Spawn `k` breeds under genome id `lastId + k + 1` with the `k`-th draws. */
  lemma SpawnedAt(parents: seq<Individual>, draws: seq<SpawnDraws>, lastId: int, k: nat)
    requires |parents| > 0 && k < |draws|
    ensures Spawned(parents, draws, lastId)[k] == Spawn(parents, draws[k], lastId + k + 1)
  {
    TabulateAt(SpawnEach(parents, draws, lastId), |draws|, k);
    SpawnEachAt(parents, draws, lastId, k);
  }

  /** The spawn loop over the mutated offspring `ms`: it stops at the first mutation that panics or never returns. */
  function Collect(ms: seq<Mutated>): (r: Ending<seq<Individual>>)
    ensures r.Returns? <==> forall k :: 0 <= k < |ms| ==> ms[k].outcome == Applied || ms[k].outcome == Skipped
    ensures r.Returns? ==> |r.value| == |ms|
    decreases |ms|
  {
    if |ms| == 0 then Returns([])
    else
      match Collect(ms[..|ms| - 1])
      case Panics => Panics
      case Hangs => Hangs
      case Returns(born) => Append(born, ms[|ms| - 1])
  }

  /** The loop collects each mutated genome unchanged, with fitness zero. */
  lemma {:induction false} CollectAt(ms: seq<Mutated>, k: nat)
    requires k < |ms| && Collect(ms).Returns?
    ensures Collect(ms).value[k] == Individual(ms[k].genome, 0.0)
    decreases |ms|
  {
    var init := ms[..|ms| - 1];
    if k < |ms| - 1 {
      assert init[k] == ms[k];
      CollectAt(init, k);
    }
  }

  /** One more iteration of the spawn loop, after `k` offspring were born. */
  lemma CollectSnoc(ms: seq<Mutated>, k: nat, born: seq<Individual>)
    requires k < |ms| && Collect(ms[..k]) == Returns(born)
    ensures Collect(ms[..k + 1]) == Append(born, ms[k])
  {
    assert ms[..k + 1][..k] == ms[..k];
  }

  /** Once an iteration panics or never returns, later iterations change nothing. */
  lemma {:induction false} CollectFailurePersists(ms: seq<Mutated>, k: nat)
    requires k <= |ms| && !Collect(ms[..k]).Returns?
    ensures Collect(ms) == Collect(ms[..k])
    decreases |ms| - k
  {
    if k < |ms| {
      assert ms[..k + 1][..k] == ms[..k];
      CollectFailurePersists(ms, k + 1);
    } else {
      assert ms[..k] == ms;
    }
  }

  /** The spawn loop: one offspring per draw; with no parents the first spawn panics. */
  ghost function SpawnAll(parents: seq<Individual>, draws: seq<SpawnDraws>, lastId: int): (r: Ending<seq<Individual>>)
    ensures |draws| > 0 && |parents| == 0 ==> r.Panics?
    ensures r.Returns? ==> |r.value| == |draws|
  {
    if |draws| == 0 then Returns([])
    else if |parents| == 0 then Panics
    else Collect(Spawned(parents, draws, lastId))
  }

  /** Offspring `k` has the genome id `lastId + k + 1` and fitness zero. */
  lemma SpawnAllFresh(parents: seq<Individual>, draws: seq<SpawnDraws>, lastId: int)
    ensures var r := SpawnAll(parents, draws, lastId);
      r.Returns? ==> forall k :: 0 <= k < |r.value| ==>
        r.value[k].fitness == 0.0 && r.value[k].genome.id == lastId + k + 1
  {
    var r := SpawnAll(parents, draws, lastId);
    if |draws| > 0 && r.Returns? {
      forall k | 0 <= k < |r.value|
        ensures r.value[k].fitness == 0.0 && r.value[k].genome.id == lastId + k + 1
      {
        CollectAt(Spawned(parents, draws, lastId), k);
        SpawnedAt(parents, draws, lastId, k);
      }
    }
  }

  /** Parents of one arity breed offspring of that arity. */
  lemma SpawnAllKeepsArity(parents: seq<Individual>, draws: seq<SpawnDraws>, lastId: int, ni: int, no: int)
    requires SameArity(parents, ni, no)
    ensures var r := SpawnAll(parents, draws, lastId);
      r.Returns? ==> SameArity(r.value, ni, no)
  {
    var r := SpawnAll(parents, draws, lastId);
    if |draws| > 0 && r.Returns? {
      forall k | 0 <= k < |r.value|
        ensures r.value[k].genome.numInputs == ni && r.value[k].genome.numOutputs == no
      {
        CollectAt(Spawned(parents, draws, lastId), k);
        SpawnedAt(parents, draws, lastId, k);
        SpawnArity(parents, draws[k], lastId + k + 1);
        var p := Choose(parents, draws[k].first);
        var j :| 0 <= j < |parents| && parents[j] == p;
      }
    }
  }

  /** What `reproduce` returns: a panic when it pops more than the population holds, else the spawn loop. */
  ghost function ReproduceSpec(individuals: seq<Individual>, config: Config, draws: seq<SpawnDraws>, lastId: int): Ending<seq<Individual>> {
    var cutoff := Cutoff(config.survivalThreshold, |individuals|);
    if cutoff > |individuals| then Panics
    else SpawnAll(Survivors(individuals, cutoff), draws, lastId)
  }

  /**
   * With no parents left, `choose(..).unwrap()` panics on the first
   * offspring: an empty population cannot reproduce.
   */
  lemma EmptyPopulationPanics(config: Config, draws: seq<SpawnDraws>, lastId: int)
    requires |draws| > 0
    ensures ReproduceSpec([], config, draws, lastId) == Panics
  {
    assert Survivors([], Cutoff(config.survivalThreshold, 0)) == [];
  }

  /** Whether a genome can breed safely: an acyclic link graph, and the next neuron id unused by links. */
  ghost predicate Breedable(g: Genome) {
    Acyclic(Edges(g.links)) && NextNeuronIdFree(g)
  }

  /**
   * Offspring of parents with acyclic link graphs have acyclic link graphs:
   * crossover copies the dominant parent's link ids, and every mutation
   * keeps the graph acyclic.
   */
  lemma SpawnKeepsAcyclic(parents: seq<Individual>, d: SpawnDraws, id: int)
    requires |parents| > 0 && forall j :: 0 <= j < |parents| ==> Breedable(parents[j].genome)
    ensures Acyclic(Edges(Spawn(parents, d, id).genome.links))
  {
    var dominant := Choose(parents, d.first);
    var recessive := Choose(parents, d.second);
    var offspring := Offspring(dominant.genome, recessive.genome, d.cross, id);
    OffspringKeepsEdges(dominant.genome, recessive.genome, d.cross, id);
    assert Edges(offspring.links) == Edges(dominant.genome.links);
    assert Breedable(dominant.genome);
    MutateKeepsAcyclic(offspring, d.kind, d.mutation);
  }

  /** Every individual's link graph is acyclic. */
  ghost predicate AllAcyclic(s: seq<Individual>) {
    forall k :: 0 <= k < |s| ==> Acyclic(Edges(s[k].genome.links))
  }

  lemma SpawnAllKeepsAcyclic(parents: seq<Individual>, draws: seq<SpawnDraws>, lastId: int)
    requires forall j :: 0 <= j < |parents| ==> Breedable(parents[j].genome)
    ensures var r := SpawnAll(parents, draws, lastId);
      r.Returns? ==> AllAcyclic(r.value)
  {
    var r := SpawnAll(parents, draws, lastId);
    if |draws| > 0 && r.Returns? {
      forall k | 0 <= k < |r.value|
        ensures Acyclic(Edges(r.value[k].genome.links))
      {
        CollectAt(Spawned(parents, draws, lastId), k);
        SpawnedAcyclic(parents, draws, lastId, k);
      }
    }
  }

  lemma SpawnedAcyclic(parents: seq<Individual>, draws: seq<SpawnDraws>, lastId: int, k: nat)
    requires |parents| > 0 && k < |draws|
    requires forall j :: 0 <= j < |parents| ==> Breedable(parents[j].genome)
    ensures Acyclic(Edges(Spawned(parents, draws, lastId)[k].genome.links))
  {
    var id := lastId + k + 1;
    SpawnKeepsAcyclic(parents, draws[k], id);
    var g := Spawn(parents, draws[k], id).genome;
    SpawnedAt(parents, draws, lastId, k);
    assert Spawned(parents, draws, lastId)[k].genome == g;
  }

  /** The new generation of a population of breedable genomes has acyclic link graphs only. */
  lemma ReproduceKeepsAcyclic(individuals: seq<Individual>, config: Config, draws: seq<SpawnDraws>, lastId: int)
    requires forall j :: 0 <= j < |individuals| ==> Breedable(individuals[j].genome)
    ensures var r := ReproduceSpec(individuals, config, draws, lastId);
      r.Returns? ==> AllAcyclic(r.value)
  {
    var cutoff := Cutoff(config.survivalThreshold, |individuals|);
    if cutoff <= |individuals| {
      SpawnAllKeepsAcyclic(Survivors(individuals, cutoff), draws, lastId);
    }
  }

  /** The individuals `populate` appends: fresh genomes with consecutive ids, fitness zero. */
  function FreshIndividuals(config: Config, draws: seq<GenomeDraws>, lastId: int): (r: seq<Individual>)
    requires forall k :: 0 <= k < |draws| ==> Sized(draws[k], config.numInputs, config.numOutputs)
    ensures |r| == |draws|
    ensures forall k :: 0 <= k < |r| ==> r[k].fitness == 0.0 && r[k].genome.id == lastId + k + 1
    ensures forall k :: 0 <= k < |r| ==>
      r[k].genome.numInputs == config.numInputs && r[k].genome.numOutputs == config.numOutputs
  {
    seq(|draws|, k requires 0 <= k < |draws| =>
      Individual(FreshGenome(lastId + k + 1, config.numInputs, config.numOutputs, config.min, config.max, draws[k]), 0.0))
  }

  // ---------------------------------------------------------------------
  // run

  /** `compute_fitness` as seen by the loop: individual k gets score k when there is one. */
  function Score(individuals: seq<Individual>, scores: seq<real>): (r: seq<Individual>)
    ensures |r| == |individuals|
    ensures forall k :: 0 <= k < |r| ==> r[k].genome == individuals[k].genome
    ensures forall k :: 0 <= k < |r| && k < |scores| ==> r[k].fitness == scores[k]
  {
    seq(|individuals|, k requires 0 <= k < |individuals| =>
      if k < |scores| then individuals[k].(fitness := scores[k]) else individuals[k])
  }

  /** The population's fields and the genome counter. */
  datatype State = State(individuals: seq<Individual>, best: Individual, lastId: int)

  /**
   * One generation of `run`: score, sort from the fittest down, record the
   * fittest as best (panicking on an empty population), and replace the
   * population by its offspring.
   */
  ghost function GenerationSpec(st: State, config: Config, scores: seq<real>, draws: seq<SpawnDraws>): (r: Ending<State>)
    ensures r.Returns? ==> |r.value.individuals| == |draws| && r.value.lastId == st.lastId + |draws|
    ensures r.Returns? ==> r.value.best in multiset(Score(st.individuals, scores))
    ensures r.Returns? ==> forall k :: 0 <= k < |st.individuals| ==>
      r.value.best.fitness >= Score(st.individuals, scores)[k].fitness
  {
    var sorted := SortIndividualsByFitness(Score(st.individuals, scores));
    if |sorted| == 0 then Panics
    else
      BestIsFittest(st.individuals, scores);
      assert sorted[0] in multiset(sorted);
      match ReproduceSpec(sorted, config, draws, st.lastId)
      case Panics => Panics
      case Hangs => Hangs
      case Returns(born) => Returns(State(born, sorted[0], st.lastId + |draws|))
  }

  /** How a call that updates the population ended, with the state it left when it returned. */
  function Observed(r: Ending<()>, st: State): Ending<State> {
    match r
    case Returns(_) => Returns(st)
    case Panics => Panics
    case Hangs => Hangs
  }

  /** Generations `i` to `n - 1` of `run`. */
  ghost function RunFrom(st: State, config: Config, scores: seq<seq<real>>, draws: seq<seq<SpawnDraws>>, i: nat, n: nat): Ending<State>
    requires n <= |scores| && n <= |draws|
    decreases n - i
  {
    if i >= n then Returns(st)
    else
      match GenerationSpec(st, config, scores[i], draws[i])
      case Panics => Panics
      case Hangs => Hangs
      case Returns(next) => RunFrom(next, config, scores, draws, i + 1, n)
  }

  /** Unfolds one generation of `RunFrom`. */
  lemma RunFromStep(st: State, config: Config, scores: seq<seq<real>>, draws: seq<seq<SpawnDraws>>, i: nat, n: nat)
    requires i < n <= |scores| && n <= |draws|
    ensures var step := GenerationSpec(st, config, scores[i], draws[i]);
      && (step.Returns? ==> RunFrom(st, config, scores, draws, i, n) == RunFrom(step.value, config, scores, draws, i + 1, n))
      && (step.Panics? ==> RunFrom(st, config, scores, draws, i, n).Panics?)
      && (step.Hangs? ==> RunFrom(st, config, scores, draws, i, n).Hangs?)
  {
  }

  /** The first individual after the sort is at least as fit as every scored individual. */
  lemma BestIsFittest(individuals: seq<Individual>, scores: seq<real>)
    requires |individuals| > 0
    ensures var sorted := SortIndividualsByFitness(Score(individuals, scores));
      forall k :: 0 <= k < |individuals| ==> sorted[0].fitness >= Score(individuals, scores)[k].fitness
  {
    var scored := Score(individuals, scores);
    var sorted := SortIndividualsByFitness(scored);
    forall k | 0 <= k < |scored|
      ensures sorted[0].fitness >= scored[k].fitness
    {
      assert scored[k] in multiset(sorted);
      var j :| 0 <= j < |sorted| && sorted[j] == scored[k];
    }
  }

  class Population {
    var individuals: seq<Individual>
    var best: Individual

    constructor (individuals: seq<Individual>, best: Individual)
      ensures this.individuals == individuals && this.best == best
    {
      this.individuals := individuals;
      this.best := best;
    }

    /** `populate`: append one fresh genome per population slot, each with fitness zero. */
    method Populate(indexer: GenomeIndexer, config: Config, draws: seq<GenomeDraws>)
      requires |draws| == config.populationSize
      requires forall k :: 0 <= k < |draws| ==> Sized(draws[k], config.numInputs, config.numOutputs)
      modifies this, indexer
      ensures indexer.last == old(indexer.last) + config.populationSize
      ensures individuals == old(individuals) + FreshIndividuals(config, draws, old(indexer.last))
      ensures best == old(best)
    {
      ghost var start := individuals;
      ghost var last := indexer.last;
      for k := 0 to config.populationSize
        invariant indexer.last == last + k
        invariant individuals == start + FreshIndividuals(config, draws[..k], last)
        invariant best == old(best)
      {
        var genome := NewGenome(indexer, config.numInputs, config.numOutputs, config.min, config.max, draws[k]);
        assert FreshIndividuals(config, draws[..k + 1], last) ==
               FreshIndividuals(config, draws[..k], last) + [Individual(genome, 0.0)];
        individuals := individuals + [Individual(genome, 0.0)];
      }
      assert draws[..config.populationSize] == draws;
    }

    /** The pops of `reproduce`: the last `cutoff` individuals, last first; popping an empty vector panics. */
    method PopSurvivors(cutoff: nat) returns (survivors: Ending<seq<Individual>>)
      modifies this
      ensures cutoff > |old(individuals)| <==> survivors.Panics?
      ensures !survivors.Hangs?
      ensures survivors.Returns? ==> survivors.value == Survivors(old(individuals), cutoff)
      ensures survivors.Returns? ==> individuals == old(individuals)[..|old(individuals)| - cutoff]
      ensures best == old(best)
    {
      ghost var start := individuals;
      var popped: seq<Individual> := [];
      for i := 0 to cutoff
        invariant i <= |start| && individuals == start[..|start| - i]
        invariant popped == Survivors(start, i)
        invariant best == old(best)
      {
        if |individuals| == 0 {
          return Panics;
        }
        popped := popped + [individuals[|individuals| - 1]];
        individuals := individuals[..|individuals| - 1];
      }
      survivors := Returns(popped);
    }

    /**
     * `reproduce`: pop the parents, then breed one offspring per population
     * slot, each with a fresh genome id and fitness zero.
     */
    method Reproduce(indexer: GenomeIndexer, config: Config, draws: seq<SpawnDraws>) returns (r: Ending<seq<Individual>>)
      requires |draws| == config.populationSize
      modifies this, indexer
      ensures r == ReproduceSpec(old(individuals), config, draws, old(indexer.last))
      ensures r.Returns? ==> indexer.last == old(indexer.last) + |draws|
      ensures r.Returns? ==>
        individuals == old(individuals)[..|old(individuals)| - Cutoff(config.survivalThreshold, |old(individuals)|)]
      ensures best == old(best)
    {
      var cutoff := Cutoff(config.survivalThreshold, |individuals|);
      var popped := PopSurvivors(cutoff);
      if popped.Panics? {
        return Panics;
      }
      r := SpawnLoop(indexer, popped.value, draws);
    }

    /** One iteration of the spawn loop: choose both parents, cross them under a fresh id, mutate. */
    static method Breed(indexer: GenomeIndexer, parents: seq<Individual>, d: SpawnDraws) returns (m: Mutated)
      requires |parents| > 0
      modifies indexer
      ensures indexer.last == old(indexer.last) + 1
      ensures m == Spawn(parents, d, indexer.last)
    {
      var dominant := Choose(parents, d.first);
      var recessive := Choose(parents, d.second);
      var offspring := Cross(indexer, dominant, recessive, d.cross);
      m := Mutate(offspring, d.kind, d.mutation);
    }

    /** The spawn loop of `reproduce`: one offspring per draw, each under a fresh genome id. */
    static method SpawnLoop(indexer: GenomeIndexer, parents: seq<Individual>, draws: seq<SpawnDraws>) returns (r: Ending<seq<Individual>>)
      modifies indexer
      ensures r == SpawnAll(parents, draws, old(indexer.last))
      ensures r.Returns? ==> indexer.last == old(indexer.last) + |draws|
    {
      if |draws| == 0 {
        return Returns([]);
      }
      if |parents| == 0 {
        return Panics;
      }
      ghost var last := indexer.last;
      ghost var ms := Spawned(parents, draws, last);
      var born: seq<Individual> := [];
      for k := 0 to |draws|
        invariant indexer.last == last + k
        invariant Collect(ms[..k]) == Returns(born)
      {
        var m := Breed(indexer, parents, draws[k]);
        SpawnedAt(parents, draws, last, k);
        CollectSnoc(ms, k, born);
        if m.outcome == Panicked || m.outcome == Unfinished {
          CollectFailurePersists(ms, k + 1);
          return if m.outcome == Panicked then Panics else Hangs;
        }
        born := born + [Individual(m.genome, 0.0)];
      }
      assert ms[..|draws|] == ms;
      r := Returns(born);
    }

    /** The body of the generation loop of `run`. */
    method Generation(indexer: GenomeIndexer, config: Config, scores: seq<real>, draws: seq<SpawnDraws>) returns (r: Ending<()>)
      requires |draws| == config.populationSize
      modifies this, indexer
      ensures var spec := GenerationSpec(State(old(individuals), old(best), old(indexer.last)), config, scores, draws);
        && (r.Returns? <==> spec.Returns?) && (r.Panics? <==> spec.Panics?)
        && (r.Returns? ==> State(individuals, best, indexer.last) == spec.value)
    {
      individuals := SortIndividualsByFitness(Score(individuals, scores));
      if |individuals| == 0 {
        return Panics;
      }
      best := individuals[0];
      var born := Reproduce(indexer, config, draws);
      if born.Panics? {
        return Panics;
      }
      if born.Hangs? {
        return Hangs;
      }
      individuals := born.value;
      r := Returns(());
    }

    /**
     * `run`: the given number of generations, a negative count running none;
     * the first generation that panics or never returns ends the run.
     */
    method Run(indexer: GenomeIndexer, config: Config, scores: seq<seq<real>>, draws: seq<seq<SpawnDraws>>, numGenerations: int)
      returns (r: Ending<()>)
      requires Count(numGenerations) <= |scores| && Count(numGenerations) <= |draws|
      requires forall g :: 0 <= g < |draws| ==> |draws[g]| == config.populationSize
      modifies this, indexer
      ensures Observed(r, State(individuals, best, indexer.last)) ==
              RunFrom(State(old(individuals), old(best), old(indexer.last)), config, scores, draws, 0, Count(numGenerations))
    {
      var n := Count(numGenerations);
      ghost var spec := RunFrom(State(individuals, best, indexer.last), config, scores, draws, 0, n);
      for i := 0 to n
        invariant RunFrom(State(individuals, best, indexer.last), config, scores, draws, i, n) == spec
      {
        RunFromStep(State(individuals, best, indexer.last), config, scores, draws, i, n);
        var step := Generation(indexer, config, scores[i], draws[i]);
        if !step.Returns? {
          return step;
        }
      }
      r := Returns(());
    }
  }
}
