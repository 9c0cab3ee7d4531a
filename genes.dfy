/**
 * The genome data model: neuron genes, link genes keyed by (source, target)
 * ids, genomes, individuals, the process-wide genome id counter, the
 * fully connected initial genome and the id lookups.
 *
 * Neurons and links refer to one another only by integer id. Output neurons
 * have ids 0 .. num_outputs-1, input neurons -1 .. -num_inputs, hidden neurons
 * get the neuron count at the time they are created.
 */
module Genes {
  import opened Values

  datatype Option<T> = None | Some(value: T)

  datatype NeuronGene = NeuronGene(id: int, bias: real)

  /** A directed edge, identified by its source and target neuron ids. */
  datatype LinkId = LinkId(inId: int, outId: int)

  datatype LinkGene = LinkGene(id: LinkId, weight: real, isEnabled: bool)

  datatype Genome = Genome(id: int, numInputs: int, numOutputs: int,
                           neurons: seq<NeuronGene>, links: seq<LinkGene>)
  {
    /** The first neuron whose id is `nid`, if any. */
    function FindNeuron(nid: int): (r: Option<NeuronGene>)
      ensures r.None? <==> forall k :: 0 <= k < |neurons| ==> neurons[k].id != nid
      ensures r.Some? ==> (r.value.id == nid &&
        exists k :: 0 <= k < |neurons| && neurons[k] == r.value &&
          forall j :: 0 <= j < k ==> neurons[j].id != nid)
    {
      match NeuronPosition(neurons, nid)
      case None => None
      case Some(k) => Some(neurons[k])
    }

    /** The first link whose id is `lid`, if any. */
    function FindLink(lid: LinkId): (r: Option<LinkGene>)
      ensures r.None? <==> forall k :: 0 <= k < |links| ==> links[k].id != lid
      ensures r.Some? ==> (r.value.id == lid &&
        exists k :: 0 <= k < |links| && links[k] == r.value &&
          forall j :: 0 <= j < k ==> links[j].id != lid)
    {
      match LinkPosition(links, lid)
      case None => None
      case Some(k) => Some(links[k])
    }

    /**
     * The mutable counterpart of FindLink: the position of the first link
     * whose id is `lid`, through which a caller writes that link alone.
     */
    function FindLinkMut(lid: LinkId): (r: Option<nat>)
      ensures r.None? <==> forall k :: 0 <= k < |links| ==> links[k].id != lid
      ensures r.Some? ==> (r.value < |links| && links[r.value].id == lid &&
        forall j :: 0 <= j < r.value ==> links[j].id != lid)
      ensures r.Some? ==> FindLink(lid) == Some(links[r.value])
    {
      LinkPosition(links, lid)
    }
  }

  datatype Individual = Individual(genome: Genome, fitness: real)

  /** The position of the first element of `s` whose key is `key`, if any. */
  function FirstWithKey<T, K(==)>(s: seq<T>, keyOf: T -> K, key: K): (r: Option<nat>)
    ensures r.Some? ==> (r.value < |s| && keyOf(s[r.value]) == key &&
      forall j :: 0 <= j < r.value ==> keyOf(s[j]) != key)
    ensures r.None? ==> forall j :: 0 <= j < |s| ==> keyOf(s[j]) != key
  {
    if |s| == 0 then None
    else if keyOf(s[0]) == key then Some(0)
    else match FirstWithKey(s[1..], keyOf, key)
      case None => None
      case Some(k) => Some(k + 1)
  }

  function NeuronPosition(neurons: seq<NeuronGene>, nid: int): Option<nat> {
    FirstWithKey(neurons, (n: NeuronGene) => n.id, nid)
  }

  function LinkPosition(links: seq<LinkGene>, lid: LinkId): Option<nat> {
    FirstWithKey(links, (l: LinkGene) => l.id, lid)
  }

  predicate UniqueNeuronIds(neurons: seq<NeuronGene>) {
    forall j, k :: 0 <= j < k < |neurons| ==> neurons[j].id != neurons[k].id
  }

  predicate UniqueLinkIds(links: seq<LinkGene>) {
    forall j, k :: 0 <= j < k < |links| ==> links[j].id != links[k].id
  }

  /** The process-wide genome id counter; each call hands out the next id. */
  class GenomeIndexer {
    var last: int

    constructor ()
      ensures last == 0
    {
      last := 0;
    }

    method Next() returns (id: int)
      modifies this
      ensures last == old(last) + 1
      ensures id == last && id > old(last)
    {
      last := last + 1;
      id := last;
    }
  }

  /** The number of iterations of the Rust range `0..n`. */
  function Count(n: int): nat {
    if n > 0 then n else 0
  }

  /** The id of the input neuron with index `k`: `-1`, `-2`, ... */
  function InputId(k: int): int {
    -k - 1
  }

  /** The input ids `-1, -2, ..., -n`. */
  function InputIds(n: int): seq<int> {
    seq(Count(n), k => InputId(k))
  }

  /** The ids `0, 1, ..., n-1`. */
  function OutputIds(n: int): seq<int> {
    seq(Count(n), k => k)
  }

  lemma InputIdsMembers(n: int, x: int)
    ensures x in InputIds(n) <==> -n <= x <= -1
  {
    if -n <= x <= -1 {
      assert InputIds(n)[-x - 1] == x;
    }
  }

  lemma OutputIdsMembers(n: int, x: int)
    ensures x in OutputIds(n) <==> 0 <= x < n
  {
    if 0 <= x < n {
      assert OutputIds(n)[x] == x;
    }
  }

  method MakeInputIds(g: Genome) returns (ids: seq<int>)
    ensures ids == InputIds(g.numInputs)
  {
    ids := [];
    var id := -1;
    var i := 0;
    while i < g.numInputs
      invariant 0 <= i <= Count(g.numInputs)
      invariant id == -i - 1
      invariant ids == InputIds(i)
    {
      ids := ids + [id];
      id := id - 1;
      i := i + 1;
    }
  }

  /**
   * The network's output ids. The loop runs over `num_inputs`, not
   * `num_outputs`: see OutputIdsMatchOutputsOnlyWhenSquare.
   */
  method MakeOutputIds(g: Genome) returns (ids: seq<int>)
    ensures ids == OutputIds(g.numInputs)
  {
    ids := [];
    var i := 0;
    while i < g.numInputs
      invariant 0 <= i <= Count(g.numInputs)
      invariant ids == OutputIds(i)
    {
      ids := ids + [i];
      i := i + 1;
    }
  }

  /** The ids made from `num_inputs` are the output neuron ids only when both arities agree. */
  lemma OutputIdsMatchOutputsOnlyWhenSquare(g: Genome)
    ensures OutputIds(g.numInputs) == OutputIds(g.numOutputs) <==> Count(g.numInputs) == Count(g.numOutputs)
  {
    if OutputIds(g.numInputs) == OutputIds(g.numOutputs) {
      assert |OutputIds(g.numInputs)| == |OutputIds(g.numOutputs)|;
    }
  }

  /** Raw normal samples consumed by `Genome::new`: one bias per neuron, one weight per link. */
  datatype GenomeDraws = GenomeDraws(outputBias: seq<real>, inputBias: seq<real>, weight: seq<seq<real>>)

  predicate Sized(d: GenomeDraws, ni: nat, no: nat) {
    |d.outputBias| == no && |d.inputBias| == ni && |d.weight| == ni &&
    forall i :: 0 <= i < ni ==> |d.weight[i]| == no
  }

  function OutputNeurons(no: nat, biases: seq<real>, lo: real, hi: real): seq<NeuronGene>
    requires |biases| == no
  {
    seq(no, k requires 0 <= k < no => NeuronGene(k, NewValue(biases[k], lo, hi)))
  }

  function InputNeurons(ni: nat, biases: seq<real>, lo: real, hi: real): seq<NeuronGene>
    requires |biases| == ni
  {
    seq(ni, k requires 0 <= k < ni => NeuronGene(InputId(k), NewValue(biases[k], lo, hi)))
  }

  /** The enabled links from input `InputId(i)` to every output, in output order. */
  function InputLinks(i: nat, no: nat, row: seq<real>, lo: real, hi: real): seq<LinkGene>
    requires |row| == no
  {
    seq(no, o requires 0 <= o < no => LinkGene(LinkId(InputId(i), o), NewValue(row[o], lo, hi), true))
  }

  /** The links of the first `ni` inputs, input-major. */
  function FullLinks(ni: nat, no: nat, weight: seq<seq<real>>, lo: real, hi: real): seq<LinkGene>
    requires ni <= |weight| && forall i :: 0 <= i < ni ==> |weight[i]| == no
  {
    if ni == 0 then []
    else FullLinks(ni - 1, no, weight, lo, hi) + InputLinks(ni - 1, no, weight[ni - 1], lo, hi)
  }

  /** The genome `Genome::new(ni, no)` builds when handed the id `id` and the samples `d`. */
  function FreshGenome(id: int, ni: nat, no: nat, lo: real, hi: real, d: GenomeDraws): (g: Genome)
    requires Sized(d, ni, no)
    ensures g.id == id && g.numInputs == ni && g.numOutputs == no
    ensures |g.neurons| == no + ni
    ensures forall k :: 0 <= k < no ==> g.neurons[k].id == k
    ensures forall k :: no <= k < no + ni ==> g.neurons[k].id == InputId(k - no)
    ensures UniqueNeuronIds(g.neurons)
    ensures lo <= hi ==> forall k :: 0 <= k < |g.neurons| ==> lo <= g.neurons[k].bias <= hi
  {
    Genome(id, ni, no,
           OutputNeurons(no, d.outputBias, lo, hi) + InputNeurons(ni, d.inputBias, lo, hi),
           FullLinks(ni, no, d.weight, lo, hi))
  }

  /** Where the link from input `InputId(i)` to output `o` sits in the input-major list. */
  function Position(i: int, o: int, no: int): int {
    i * no + o
  }

  lemma {:induction false} MulMonotone(a: nat, b: nat, n: nat)
    requires a <= b
    ensures a * n <= b * n
  {
    if a < b {
      MulMonotone(a, b - 1, n);
      assert b * n == (b - 1) * n + n;
    }
  }

  lemma PositionBelow(i: nat, o: nat, ni: nat, no: nat)
    requires i < ni && o < no
    ensures 0 <= Position(i, o, no) < ni * no
  {
    MulMonotone(i + 1, ni, no);
    assert (i + 1) * no == i * no + no;
  }

  lemma {:induction false} FullLinksLength(ni: nat, no: nat, weight: seq<seq<real>>, lo: real, hi: real)
    requires ni <= |weight| && forall i :: 0 <= i < ni ==> |weight[i]| == no
    ensures |FullLinks(ni, no, weight, lo, hi)| == ni * no
  {
    if ni > 0 {
      FullLinksLength(ni - 1, no, weight, lo, hi);
      assert ni * no == (ni - 1) * no + no;
    }
  }

  /** Input-major order: the link at `Position(i, o, no)` goes from input `InputId(i)` to output `o`. */
  lemma {:induction false} FullLinksAt(ni: nat, no: nat, weight: seq<seq<real>>, lo: real, hi: real, i: nat, o: nat)
    requires ni <= |weight| && forall i :: 0 <= i < ni ==> |weight[i]| == no
    requires i < ni && o < no
    ensures 0 <= Position(i, o, no) < |FullLinks(ni, no, weight, lo, hi)|
    ensures FullLinks(ni, no, weight, lo, hi)[Position(i, o, no)] ==
            LinkGene(LinkId(InputId(i), o), NewValue(weight[i][o], lo, hi), true)
  {
    FullLinksLength(ni, no, weight, lo, hi);
    PositionBelow(i, o, ni, no);
    FullLinksLength(ni - 1, no, weight, lo, hi);
    if i < ni - 1 {
      FullLinksAt(ni - 1, no, weight, lo, hi, i, o);
    } else {
      assert Position(i, o, no) == (ni - 1) * no + o;
    }
  }

  /** An initial link: enabled, from one of the `ni` inputs to one of the `no` outputs, weight within bounds. */
  predicate InitialLink(l: LinkGene, ni: int, no: int, lo: real, hi: real) {
    && l.isEnabled
    && -ni <= l.id.inId <= -1
    && 0 <= l.id.outId < no
    && (lo <= hi ==> lo <= l.weight <= hi)
  }

  lemma {:induction false} FullLinksRange(ni: nat, no: nat, weight: seq<seq<real>>, lo: real, hi: real)
    requires ni <= |weight| && forall i :: 0 <= i < ni ==> |weight[i]| == no
    ensures forall l :: l in FullLinks(ni, no, weight, lo, hi) ==> InitialLink(l, ni, no, lo, hi)
  {
    if ni > 0 {
      FullLinksRange(ni - 1, no, weight, lo, hi);
      var prev := FullLinks(ni - 1, no, weight, lo, hi);
      var row := InputLinks(ni - 1, no, weight[ni - 1], lo, hi);
      var links := FullLinks(ni, no, weight, lo, hi);
      assert links == prev + row;
      forall l | l in links
        ensures InitialLink(l, ni, no, lo, hi)
      {
        if l in prev {
          assert InitialLink(l, ni - 1, no, lo, hi);
        } else {
          var o :| 0 <= o < no && row[o] == l;
          assert l == LinkGene(LinkId(InputId(ni - 1), o), NewValue(weight[ni - 1][o], lo, hi), true);
        }
      }
    }
  }

  lemma {:induction false} FullLinksUnique(ni: nat, no: nat, weight: seq<seq<real>>, lo: real, hi: real)
    requires ni <= |weight| && forall i :: 0 <= i < ni ==> |weight[i]| == no
    ensures UniqueLinkIds(FullLinks(ni, no, weight, lo, hi))
  {
    if ni > 0 {
      FullLinksUnique(ni - 1, no, weight, lo, hi);
      FullLinksRange(ni - 1, no, weight, lo, hi);
      var prev := FullLinks(ni - 1, no, weight, lo, hi);
      var links := FullLinks(ni, no, weight, lo, hi);
      forall j, k | 0 <= j < k < |links|
        ensures links[j].id != links[k].id
      {
        assert links == prev + InputLinks(ni - 1, no, weight[ni - 1], lo, hi);
        if j < |prev| <= k {
          assert links[j] == prev[j];
          assert InitialLink(prev[j], ni - 1, no, lo, hi);
        }
      }
    }
  }

  /** The fully connected genome holds a link from `a` to `b` exactly when `a` is an input and `b` an output. */
  lemma FullLinksPairs(ni: nat, no: nat, weight: seq<seq<real>>, lo: real, hi: real, a: int, b: int)
    requires ni <= |weight| && forall i :: 0 <= i < ni ==> |weight[i]| == no
    ensures var links := FullLinks(ni, no, weight, lo, hi);
      (exists k :: 0 <= k < |links| && links[k].id == LinkId(a, b)) <==> -(ni as int) <= a <= -1 && 0 <= b < no
  {
    FullLinksRange(ni, no, weight, lo, hi);
    var links := FullLinks(ni, no, weight, lo, hi);
    forall k | 0 <= k < |links|
      ensures InitialLink(links[k], ni, no, lo, hi)
    {
      assert links[k] in links;
    }
    if -(ni as int) <= a <= -1 && 0 <= b < no {
      FullLinksAt(ni, no, weight, lo, hi, -a - 1, b);
      assert links[Position(-a - 1, b, no)].id == LinkId(a, b);
    }
  }

  /** `Genome::new`: a fresh id, then the output neurons, then each input with its links. */
  method NewGenome(indexer: GenomeIndexer, ni: nat, no: nat, lo: real, hi: real, d: GenomeDraws)
    returns (g: Genome)
    requires Sized(d, ni, no)
    modifies indexer
    ensures indexer.last == old(indexer.last) + 1
    ensures g == FreshGenome(indexer.last, ni, no, lo, hi, d)
  {
    var id := indexer.Next();
    var neurons: seq<NeuronGene> := [];
    var links: seq<LinkGene> := [];
    for i := 0 to no
      invariant neurons == OutputNeurons(no, d.outputBias, lo, hi)[..i]
    {
      neurons := neurons + [NeuronGene(i, NewValue(d.outputBias[i], lo, hi))];
    }
    for i := 0 to ni
      invariant neurons == OutputNeurons(no, d.outputBias, lo, hi) + InputNeurons(ni, d.inputBias, lo, hi)[..i]
      invariant links == FullLinks(i, no, d.weight, lo, hi)
    {
      var inputId := InputId(i);
      neurons := neurons + [NeuronGene(inputId, NewValue(d.inputBias[i], lo, hi))];
      for o := 0 to no
        invariant links == FullLinks(i, no, d.weight, lo, hi) + InputLinks(i, no, d.weight[i], lo, hi)[..o]
      {
        links := links + [LinkGene(LinkId(inputId, o), NewValue(d.weight[i][o], lo, hi), true)];
      }
    }
    g := Genome(id, ni, no, neurons, links);
  }
}
