/**
 * Crossover: the offspring takes the dominant parent's genes in the dominant
 * parent's order, and for each one draws a value from the two matching genes.
 *
 * The coin flips are parameters: a set of positions at which the second
 * value of the pair is drawn. Neuron genes are matched against the
 * recessive parent; link genes are looked up in the dominant parent itself,
 * so every link gene is paired with a link of the dominant parent.
 */
module Crossover {
  import opened Genes

  /** `crossover_neuron`: the shared id and one of the two biases. */
  function CrossoverNeuron(a: NeuronGene, b: NeuronGene, takeSecond: bool): (n: NeuronGene)
    requires a.id == b.id
    ensures n.id == a.id && n.id == b.id
    ensures n.bias == (if takeSecond then b.bias else a.bias)
  {
    NeuronGene(a.id, if takeSecond then b.bias else a.bias)
  }

  /** `crossover_link`: the shared id, one of the two weights and, drawn separately, one of the two flags. */
  function CrossoverLink(a: LinkGene, b: LinkGene, secondWeight: bool, secondEnabled: bool): (l: LinkGene)
    requires a.id == b.id
    ensures l.id == a.id && l.id == b.id
    ensures l.weight == (if secondWeight then b.weight else a.weight)
    ensures l.isEnabled == (if secondEnabled then b.isEnabled else a.isEnabled)
  {
    LinkGene(a.id, if secondWeight then b.weight else a.weight,
             if secondEnabled then b.isEnabled else a.isEnabled)
  }

  /** Crossing a gene with an identical one gives it back, whatever the coins. */
  lemma CrossoverSameGenes(n: NeuronGene, l: LinkGene, c1: bool, c2: bool, c3: bool)
    ensures CrossoverNeuron(n, n, c1) == n
    ensures CrossoverLink(l, l, c2, c3) == l
  {
  }

  /** The positions at which each coin flip picks the second value of its pair. */
  datatype CrossoverDraws = CrossoverDraws(secondBias: set<nat>, secondWeight: set<nat>, secondEnabled: set<nat>)

  /** A dominant neuron gene, crossed with the recessive parent's neuron of the same id when there is one. */
  function InheritNeuron(n: NeuronGene, recessive: Genome, takeSecond: bool): NeuronGene {
    match recessive.FindNeuron(n.id)
    case Some(r) => CrossoverNeuron(n, r, takeSecond)
    case None => n
  }

  /** A dominant link gene, crossed with the dominant parent's first link of the same id. */
  function InheritLink(l: LinkGene, dominant: Genome, secondWeight: bool, secondEnabled: bool): LinkGene {
    match dominant.FindLink(l.id)
    case Some(r) => CrossoverLink(l, r, secondWeight, secondEnabled)
    case None => l
  }

  /** The first `n` neurons of the offspring, one per dominant neuron. */
  function InheritedNeurons(dominant: Genome, recessive: Genome, coins: set<nat>, n: nat): (s: seq<NeuronGene>)
    requires n <= |dominant.neurons|
    ensures |s| == n
    decreases n
  {
    if n == 0 then []
    else InheritedNeurons(dominant, recessive, coins, n - 1) +
         [InheritNeuron(dominant.neurons[n - 1], recessive, n - 1 in coins)]
  }

  /** The first `n` links of the offspring, one per dominant link. */
  function InheritedLinks(dominant: Genome, d: CrossoverDraws, n: nat): (s: seq<LinkGene>)
    requires n <= |dominant.links|
    ensures |s| == n
    decreases n
  {
    if n == 0 then []
    else InheritedLinks(dominant, d, n - 1) +
         [InheritLink(dominant.links[n - 1], dominant, n - 1 in d.secondWeight, n - 1 in d.secondEnabled)]
  }

  /** Offspring neuron `k` is dominant neuron `k` crossed with its recessive match under coin `k`. */
  lemma {:induction false} InheritedNeuronAt(dominant: Genome, recessive: Genome, coins: set<nat>, n: nat, k: nat)
    requires k < n <= |dominant.neurons|
    ensures InheritedNeurons(dominant, recessive, coins, n)[k] == InheritNeuron(dominant.neurons[k], recessive, k in coins)
    decreases n
  {
    if k < n - 1 {
      InheritedNeuronAt(dominant, recessive, coins, n - 1, k);
    }
  }

  /** Offspring link `k` is dominant link `k` crossed with its lookup under coins `k`. */
  lemma {:induction false} InheritedLinkAt(dominant: Genome, d: CrossoverDraws, n: nat, k: nat)
    requires k < n <= |dominant.links|
    ensures InheritedLinks(dominant, d, n)[k] == InheritLink(dominant.links[k], dominant, k in d.secondWeight, k in d.secondEnabled)
    decreases n
  {
    if k < n - 1 {
      InheritedLinkAt(dominant, d, n - 1, k);
    }
  }

  /** The link's weight and flag each come from a dominant link with the same id. */
  predicate InheritsFromDominant(l: LinkGene, links: seq<LinkGene>) {
    && (exists j :: 0 <= j < |links| && links[j].id == l.id && links[j].weight == l.weight)
    && (exists j :: 0 <= j < |links| && links[j].id == l.id && links[j].isEnabled == l.isEnabled)
  }

  /**
   * The genome `crossover` builds under id `id`: the dominant parent's
   * arity, one neuron per dominant neuron and one link per dominant link.
   */
  function Offspring(dominant: Genome, recessive: Genome, d: CrossoverDraws, id: int): (g: Genome)
    ensures g.id == id && g.numInputs == dominant.numInputs && g.numOutputs == dominant.numOutputs
    ensures |g.neurons| == |dominant.neurons| && |g.links| == |dominant.links|
  {
    Genome(id, dominant.numInputs, dominant.numOutputs,
           InheritedNeurons(dominant, recessive, d.secondBias, |dominant.neurons|),
           InheritedLinks(dominant, d, |dominant.links|))
  }

  /** Offspring neuron `k` keeps the id of dominant neuron `k` and takes the bias of one of the two parents' neurons with that id. */
  lemma OffspringNeuron(dominant: Genome, recessive: Genome, d: CrossoverDraws, id: int, k: nat)
    requires k < |dominant.neurons|
    ensures var n := Offspring(dominant, recessive, d, id).neurons[k];
      && n.id == dominant.neurons[k].id
      && match recessive.FindNeuron(dominant.neurons[k].id)
         case None => n == dominant.neurons[k]
         case Some(r) => r.id == n.id && (n.bias == dominant.neurons[k].bias || n.bias == r.bias)
  {
    InheritedNeuronAt(dominant, recessive, d.secondBias, |dominant.neurons|, k);
  }

  /** Offspring link `k` keeps the id of dominant link `k` and takes its weight and flag from dominant links with that id. */
  lemma OffspringLink(dominant: Genome, recessive: Genome, d: CrossoverDraws, id: int, k: nat)
    requires k < |dominant.links|
    ensures var l := Offspring(dominant, recessive, d, id).links[k];
      l.id == dominant.links[k].id && InheritsFromDominant(l, dominant.links)
  {
    InheritedLinkAt(dominant, d, |dominant.links|, k);
    var l := Offspring(dominant, recessive, d, id).links[k];
    var found := dominant.FindLink(l.id);
    var j :| 0 <= j < |dominant.links| && dominant.links[j] == found.value;
    if l.weight == dominant.links[k].weight {
      assert dominant.links[k].id == l.id && dominant.links[k].weight == l.weight;
    } else {
      assert dominant.links[j].id == l.id && dominant.links[j].weight == l.weight;
    }
    if l.isEnabled == dominant.links[k].isEnabled {
      assert dominant.links[k].id == l.id && dominant.links[k].isEnabled == l.isEnabled;
    } else {
      assert dominant.links[j].id == l.id && dominant.links[j].isEnabled == l.isEnabled;
    }
  }

  lemma FindOwnLink(g: Genome, k: nat)
    requires UniqueLinkIds(g.links) && k < |g.links|
    ensures g.FindLink(g.links[k].id) == Some(g.links[k])
  {
    var pos := LinkPosition(g.links, g.links[k].id);
    assert pos.Some?;
  }

  lemma FindOwnNeuron(g: Genome, k: nat)
    requires UniqueNeuronIds(g.neurons) && k < |g.neurons|
    ensures g.FindNeuron(g.neurons[k].id) == Some(g.neurons[k])
  {
    var pos := NeuronPosition(g.neurons, g.neurons[k].id);
    assert pos.Some?;
  }

  /**
   * With distinct link ids the link lookup finds each link itself, so the
   * offspring's links are exactly the dominant parent's: the recessive
   * parent's links never reach the offspring.
   */
  lemma OffspringLinksAreDominantLinks(dominant: Genome, recessive: Genome, d: CrossoverDraws, id: int)
    requires UniqueLinkIds(dominant.links)
    ensures Offspring(dominant, recessive, d, id).links == dominant.links
  {
    var links := Offspring(dominant, recessive, d, id).links;
    forall k | 0 <= k < |links|
      ensures links[k] == dominant.links[k]
    {
      InheritedLinkAt(dominant, d, |dominant.links|, k);
      FindOwnLink(dominant, k);
    }
  }

  /** Whatever the draws, the offspring's link graph is the dominant parent's. */
  lemma OffspringKeepsEdges(dominant: Genome, recessive: Genome, d: CrossoverDraws, id: int)
    ensures forall k :: 0 <= k < |dominant.links| ==>
      Offspring(dominant, recessive, d, id).links[k].id == dominant.links[k].id
    ensures |Offspring(dominant, recessive, d, id).links| == |dominant.links|
  {
    forall k | 0 <= k < |dominant.links|
      ensures Offspring(dominant, recessive, d, id).links[k].id == dominant.links[k].id
    {
      InheritedLinkAt(dominant, d, |dominant.links|, k);
    }
  }

  /** A neuron the recessive parent lacks is copied unchanged from the dominant parent. */
  lemma UnmatchedNeuronCopied(dominant: Genome, recessive: Genome, d: CrossoverDraws, id: int, k: nat)
    requires k < |dominant.neurons|
    requires forall j :: 0 <= j < |recessive.neurons| ==> recessive.neurons[j].id != dominant.neurons[k].id
    ensures Offspring(dominant, recessive, d, id).neurons[k] == dominant.neurons[k]
  {
    assert recessive.FindNeuron(dominant.neurons[k].id).None?;
    InheritedNeuronAt(dominant, recessive, d.secondBias, |dominant.neurons|, k);
  }

  /**
   * Crossing a genome with itself, when its neuron and link ids are
   * distinct, reproduces it under the new id.
   */
  lemma SelfCrossover(g: Genome, d: CrossoverDraws, id: int)
    requires UniqueNeuronIds(g.neurons) && UniqueLinkIds(g.links)
    ensures Offspring(g, g, d, id) == g.(id := id)
  {
    OffspringLinksAreDominantLinks(g, g, d, id);
    var neurons := Offspring(g, g, d, id).neurons;
    forall k | 0 <= k < |g.neurons|
      ensures neurons[k] == g.neurons[k]
    {
      InheritedNeuronAt(g, g, d.secondBias, |g.neurons|, k);
      FindOwnNeuron(g, k);
    }
  }

  /** `crossover`: a fresh genome id, then the two inheritance loops. */
  method Cross(indexer: GenomeIndexer, dominant: Individual, recessive: Individual, d: CrossoverDraws)
    returns (offspring: Genome)
    modifies indexer
    ensures indexer.last == old(indexer.last) + 1
    ensures offspring == Offspring(dominant.genome, recessive.genome, d, indexer.last)
  {
    var id := indexer.Next();
    var dom := dominant.genome;
    var neurons: seq<NeuronGene> := [];
    for k := 0 to |dom.neurons|
      invariant neurons == InheritedNeurons(dom, recessive.genome, d.secondBias, k)
    {
      var n := dom.neurons[k];
      var found := recessive.genome.FindNeuron(n.id);
      if found.Some? {
        neurons := neurons + [CrossoverNeuron(n, found.value, k in d.secondBias)];
      } else {
        neurons := neurons + [n];
      }
    }
    var links: seq<LinkGene> := [];
    for k := 0 to |dom.links|
      invariant links == InheritedLinks(dom, d, k)
    {
      var l := dom.links[k];
      var found := dom.FindLink(l.id);
      if found.Some? {
        links := links + [CrossoverLink(l, found.value, k in d.secondWeight, k in d.secondEnabled)];
      } else {
        links := links + [l];
      }
    }
    offspring := Genome(id, dom.numInputs, dom.numOutputs, neurons, links);
  }
}
