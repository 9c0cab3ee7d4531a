/**
 * The feed-forward network built from a genome and its evaluation.
 *
 * Activation stores every value in a map keyed by neuron id: first the
 * inputs, then a zero under each key 0 .. |outputIds| - 1, then, neuron by
 * neuron in the network's order, the weighted sum of the neuron's inputs
 * plus its bias, passed through ReLU unless the neuron is an output. A
 * missing input value aborts the evaluation, as does a missing output value
 * at the end: both are `None` here.
 */
module Network {
  import opened Genes
  import opened Layers

  /** `relu`: the larger of `x` and zero. */
  function Relu(x: real): (r: real)
    ensures r >= 0.0 && r >= x
    ensures r == x || r == 0.0
  {
    if x >= 0.0 then x else 0.0
  }

  datatype NeuronInput = NeuronInput(inputId: int, weight: real)

  datatype Neuron = Neuron(id: int, bias: real, inputs: seq<NeuronInput>)

  datatype FeedForwardNetwork = FeedForwardNetwork(inputIds: seq<int>, outputIds: seq<int>, neurons: seq<Neuron>)

  // ---------------------------------------------------------------------
  // activate

  /** The input values stored under the input ids, in order, so a repeated id keeps its last value. */
  function LoadInputs(ids: seq<int>, xs: seq<real>): (m: map<int, real>)
    requires |ids| == |xs|
    ensures m.Keys == Elems(ids)
    decreases |ids|
  {
    if |ids| == 0 then map[]
    else
      var n := |ids| - 1;
      assert forall i :: 0 <= i < n ==> ids[..n][i] == ids[i];
      assert Elems(ids) == Elems(ids[..n]) + {ids[n]};
      LoadInputs(ids[..n], xs[..n])[ids[n] := xs[n]]
  }

  /** With distinct ids, each input value sits under its own id. */
  lemma {:induction false} LoadInputsValues(ids: seq<int>, xs: seq<real>)
    requires |ids| == |xs| && Distinct(ids)
    ensures forall i :: 0 <= i < |ids| ==> LoadInputs(ids, xs)[ids[i]] == xs[i]
    decreases |ids|
  {
    if |ids| > 0 {
      var n := |ids| - 1;
      assert Distinct(ids[..n]);
      LoadInputsValues(ids[..n], xs[..n]);
      forall i | 0 <= i < n
        ensures LoadInputs(ids, xs)[ids[i]] == xs[i]
      {
        assert ids[..n][i] == ids[i] && xs[..n][i] == xs[i];
      }
    }
  }

  /** The keys 0 .. n - 1. */
  function Indices(n: int): (r: set<int>)
    ensures forall x :: x in r <==> 0 <= x < n
    decreases n
  {
    if n <= 0 then {} else Indices(n - 1) + {n - 1}
  }

  /** The zero written under each key 0 .. n - 1, over whatever was stored there. */
  function ZeroOutputs(values: map<int, real>, n: nat): (m: map<int, real>)
    ensures m.Keys == values.Keys + Indices(n)
  {
    if n == 0 then values
    else ZeroOutputs(values, n - 1)[n - 1 := 0.0]
  }

  lemma ZeroOutputsStep(values: map<int, real>, n: nat)
    ensures ZeroOutputs(values, n + 1) == ZeroOutputs(values, n)[n := 0.0]
  {
  }

  /** Each key below `n` holds zero; every other stored value is kept. */
  lemma {:induction false} ZeroOutputsValues(values: map<int, real>, n: nat)
    ensures forall k :: 0 <= k < n ==> ZeroOutputs(values, n)[k] == 0.0
    ensures forall x :: x in values && !(0 <= x < n) ==> ZeroOutputs(values, n)[x] == values[x]
  {
    if n > 0 {
      ZeroOutputsValues(values, n - 1);
    }
  }

  /** The map `activate` starts from. */
  function Seed(net: FeedForwardNetwork, inputs: seq<real>): map<int, real>
    requires |inputs| == |net.inputIds|
  {
    ZeroOutputs(LoadInputs(net.inputIds, inputs), |net.outputIds|)
  }

  /** One input's contribution: its value times the link weight. */
  function Scale(value: real, weight: real): real {
    value * weight
  }

  /** The weighted sum of the inputs' values, in order; `None` when one of them has no value yet. */
  function WeightedSum(inputs: seq<NeuronInput>, values: map<int, real>): (r: Option<real>)
    ensures r.Some? <==> forall i :: 0 <= i < |inputs| ==> inputs[i].inputId in values
    ensures |inputs| == 0 ==> r == Some(0.0)
    decreases |inputs|
  {
    if |inputs| == 0 then Some(0.0)
    else
      var n := |inputs| - 1;
      assert forall i :: 0 <= i < n ==> inputs[..n][i] == inputs[i];
      match WeightedSum(inputs[..n], values)
      case None => None
      case Some(s) =>
        if inputs[n].inputId in values then Some(s + Scale(values[inputs[n].inputId], inputs[n].weight))
        else None
  }

  /** The value one neuron takes: linear for an output neuron, through ReLU otherwise. */
  function Fire(neuron: Neuron, outputIds: seq<int>, values: map<int, real>): (r: Option<real>)
    ensures r.Some? <==> forall i :: 0 <= i < |neuron.inputs| ==> neuron.inputs[i].inputId in values
    ensures r.Some? && neuron.id !in outputIds ==> r.value >= 0.0
    ensures r.Some? && neuron.id in outputIds ==> r.value == WeightedSum(neuron.inputs, values).value + neuron.bias
  {
    match WeightedSum(neuron.inputs, values)
    case None => None
    case Some(s) =>
      var value := s + neuron.bias;
      Some(if neuron.id in outputIds then value else Relu(value))
  }

  /** The ids of the neurons. */
  function NeuronIds(neurons: seq<Neuron>): set<int> {
    set k | 0 <= k < |neurons| :: neurons[k].id
  }

  /** The map after firing the neurons in order; `None` once one of them misses an input. */
  function Propagate(neurons: seq<Neuron>, outputIds: seq<int>, values: map<int, real>): (r: Option<map<int, real>>)
    ensures r.Some? ==> r.value.Keys == values.Keys + NeuronIds(neurons)
    decreases |neurons|
  {
    if |neurons| == 0 then Some(values)
    else
      var n := |neurons| - 1;
      assert NeuronIds(neurons) == NeuronIds(neurons[..n]) + {neurons[n].id} by {
        assert forall k :: 0 <= k < n ==> neurons[..n][k] == neurons[k];
      }
      match Propagate(neurons[..n], outputIds, values)
      case None => None
      case Some(m) =>
        match Fire(neurons[n], outputIds, m)
        case None => None
        case Some(v) => Some(m[neurons[n].id := v])
  }

  /** The output values in output order; `None` when an output id has no value. */
  function ReadOutputs(outputIds: seq<int>, values: map<int, real>): (r: Option<seq<real>>)
    ensures r.Some? <==> forall i :: 0 <= i < |outputIds| ==> outputIds[i] in values
    ensures r.Some? ==> |r.value| == |outputIds|
    ensures r.Some? ==> forall i :: 0 <= i < |outputIds| ==> r.value[i] == values[outputIds[i]]
  {
    if forall i :: 0 <= i < |outputIds| ==> outputIds[i] in values then
      Some(seq(|outputIds|, i requires 0 <= i < |outputIds| => values[outputIds[i]]))
    else None
  }

  /** What `activate` returns, or `None` where it panics on a missing value. */
  function ActivateSpec(net: FeedForwardNetwork, inputs: seq<real>): (r: Option<seq<real>>)
    requires |inputs| == |net.inputIds|
    ensures r.Some? ==> |r.value| == |net.outputIds|
  {
    match Propagate(net.neurons, net.outputIds, Seed(net, inputs))
    case None => None
    case Some(m) => ReadOutputs(net.outputIds, m)
  }

  /** Once a prefix of the neurons misses an input, the whole evaluation does. */
  lemma {:induction false} PropagateFailurePersists(neurons: seq<Neuron>, outputIds: seq<int>, values: map<int, real>, k: nat)
    requires k <= |neurons| && Propagate(neurons[..k], outputIds, values).None?
    ensures Propagate(neurons, outputIds, values).None?
    decreases |neurons| - k
  {
    if k < |neurons| {
      assert neurons[..k + 1][..k] == neurons[..k];
      PropagateFailurePersists(neurons, outputIds, values, k + 1);
    } else {
      assert neurons[..k] == neurons;
    }
  }

  /** The inner loop of `activate`: accumulate the weighted inputs, stopping at a missing one. */
  method SumInputs(inputs: seq<NeuronInput>, values: map<int, real>) returns (r: Option<real>)
    ensures r == WeightedSum(inputs, values)
  {
    var value := 0.0;
    for j := 0 to |inputs|
      invariant WeightedSum(inputs[..j], values) == Some(value)
    {
      assert inputs[..j + 1][..j] == inputs[..j] && inputs[..j + 1][j] == inputs[j];
      if inputs[j].inputId !in values {
        assert !(inputs[j].inputId in values);
        return None;
      }
      value := value + Scale(values[inputs[j].inputId], inputs[j].weight);
    }
    assert inputs[..|inputs|] == inputs;
    r := Some(value);
  }

  /** The first loop of `activate`: each input value under its input id. */
  method StoreInputs(ids: seq<int>, xs: seq<real>) returns (values: map<int, real>)
    requires |ids| == |xs|
    ensures values == LoadInputs(ids, xs)
  {
    values := map[];
    for i := 0 to |xs|
      invariant values == LoadInputs(ids[..i], xs[..i])
    {
      assert ids[..i + 1][..i] == ids[..i] && xs[..i + 1][..i] == xs[..i];
      values := values[ids[i] := xs[i]];
    }
    assert ids[..|xs|] == ids && xs[..|xs|] == xs;
  }

  /** The second loop of `activate`: a zero under each key 0 .. n - 1. */
  method StoreZeros(values: map<int, real>, n: nat) returns (r: map<int, real>)
    ensures r == ZeroOutputs(values, n)
  {
    r := values;
    for i := 0 to n
      invariant r == ZeroOutputs(values, i)
    {
      ZeroOutputsStep(values, i);
      r := r[i := 0.0];
    }
  }

  /** The first two loops of `activate`: the inputs, then a zero under each key below the output count. */
  method SeedValues(net: FeedForwardNetwork, inputs: seq<real>) returns (values: map<int, real>)
    requires |inputs| == |net.inputIds|
    ensures values == Seed(net, inputs)
  {
    var loaded := StoreInputs(net.inputIds, inputs);
    values := StoreZeros(loaded, |net.outputIds|);
  }

  /** The body of the neuron loop of `activate`: weighted sum, bias, and ReLU off the outputs. */
  method FireNeuron(neuron: Neuron, outputIds: seq<int>, values: map<int, real>) returns (r: Option<real>)
    ensures r == Fire(neuron, outputIds, values)
  {
    var sum := SumInputs(neuron.inputs, values);
    if sum.None? {
      return None;
    }
    var value := sum.value + neuron.bias;
    if neuron.id !in outputIds {
      value := Relu(value);
    }
    r := Some(value);
  }

  /** The neuron loop of `activate`: each neuron's value stored under its id, in order. */
  method FireAll(neurons: seq<Neuron>, outputIds: seq<int>, seed: map<int, real>) returns (r: Option<map<int, real>>)
    ensures r == Propagate(neurons, outputIds, seed)
  {
    var values := seed;
    for k := 0 to |neurons|
      invariant Propagate(neurons[..k], outputIds, seed) == Some(values)
    {
      assert neurons[..k + 1][..k] == neurons[..k] && neurons[..k + 1][k] == neurons[k];
      var value := FireNeuron(neurons[k], outputIds, values);
      if value.None? {
        PropagateFailurePersists(neurons, outputIds, seed, k + 1);
        return None;
      }
      values := values[neurons[k].id := value.value];
    }
    assert neurons[..|neurons|] == neurons;
    r := Some(values);
  }

  /** The output loop of `activate`: the value of each output id, in order. */
  method CollectOutputs(outputIds: seq<int>, values: map<int, real>) returns (r: Option<seq<real>>)
    ensures r == ReadOutputs(outputIds, values)
  {
    var read: seq<real> := [];
    for i := 0 to |outputIds|
      invariant |read| == i
      invariant forall j :: 0 <= j < i ==> outputIds[j] in values && read[j] == values[outputIds[j]]
    {
      if outputIds[i] !in values {
        return None;
      }
      read := read + [values[outputIds[i]]];
    }
    assert ReadOutputs(outputIds, values).value == read;
    r := Some(read);
  }

  /** `activate`: seed the map, fire the neurons in order, read the outputs. */
  method Activate(net: FeedForwardNetwork, inputs: seq<real>) returns (outputs: Option<seq<real>>)
    requires |inputs| == |net.inputIds|
    ensures outputs == ActivateSpec(net, inputs)
  {
    var seed := SeedValues(net, inputs);
    var values := FireAll(net.neurons, net.outputIds, seed);
    if values.None? {
      return None;
    }
    outputs := CollectOutputs(net.outputIds, values.value);
  }

  /** `x` has a value before neuron `j` fires: an input, one of the zeroed keys, or an earlier neuron. */
  predicate Available(net: FeedForwardNetwork, j: int, x: int) {
    x in net.inputIds || 0 <= x < |net.outputIds| || exists m :: 0 <= m < j && m < |net.neurons| && net.neurons[m].id == x
  }

  /** Every neuron reads only values that are available when it fires. */
  predicate FeedsForward(net: FeedForwardNetwork) {
    forall j, i :: 0 <= j < |net.neurons| && 0 <= i < |net.neurons[j].inputs| ==>
      Available(net, j, net.neurons[j].inputs[i].inputId)
  }

  lemma SeedKeys(net: FeedForwardNetwork, inputs: seq<real>)
    requires |inputs| == |net.inputIds|
    ensures Seed(net, inputs).Keys == Elems(net.inputIds) + Indices(|net.outputIds|)
  {
  }

  lemma {:induction false} FeedsForwardPrefix(net: FeedForwardNetwork, inputs: seq<real>, k: nat)
    requires |inputs| == |net.inputIds| && FeedsForward(net) && k <= |net.neurons|
    ensures Propagate(net.neurons[..k], net.outputIds, Seed(net, inputs)).Some?
  {
    if k > 0 {
      FeedsForwardPrefix(net, inputs, k - 1);
      var prefix := net.neurons[..k];
      assert prefix[..k - 1] == net.neurons[..k - 1];
      var m := Propagate(net.neurons[..k - 1], net.outputIds, Seed(net, inputs)).value;
      SeedKeys(net, inputs);
      var neuron := net.neurons[k - 1];
      forall i | 0 <= i < |neuron.inputs|
        ensures neuron.inputs[i].inputId in m
      {
        var x := neuron.inputs[i].inputId;
        assert Available(net, k - 1, x);
        if x !in net.inputIds && !(0 <= x < |net.outputIds|) {
          var j :| 0 <= j < k - 1 && j < |net.neurons| && net.neurons[j].id == x;
          assert net.neurons[..k - 1][j] == net.neurons[j];
        }
      }
    }
  }

  /**
   * A network whose neurons only read values available when they fire
   * evaluates without the missing-input panic; it then produces outputs
   * exactly when every output id is an input, a zeroed key or a neuron.
   */
  lemma FeedForwardActivates(net: FeedForwardNetwork, inputs: seq<real>)
    requires |inputs| == |net.inputIds| && FeedsForward(net)
    ensures Propagate(net.neurons, net.outputIds, Seed(net, inputs)).Some?
    ensures ActivateSpec(net, inputs).Some? <==>
      forall i :: 0 <= i < |net.outputIds| ==> Available(net, |net.neurons|, net.outputIds[i])
  {
    FeedsForwardPrefix(net, inputs, |net.neurons|);
    assert net.neurons[..|net.neurons|] == net.neurons;
    SeedKeys(net, inputs);
    var m := Propagate(net.neurons, net.outputIds, Seed(net, inputs)).value;
    forall x
      ensures x in m <==> Available(net, |net.neurons|, x)
    {
      if x in NeuronIds(net.neurons) {
        var j :| 0 <= j < |net.neurons| && net.neurons[j].id == x;
      }
    }
  }

  // ---------------------------------------------------------------------
  // create_from_genome

  /** The enabled links, in order. */
  function EnabledLinks(links: seq<LinkGene>): (r: seq<LinkGene>)
    ensures forall l :: l in r <==> l in links && l.isEnabled
    ensures |r| <= |links|
    decreases |links|
  {
    if |links| == 0 then []
    else
      var n := |links| - 1;
      assert links == links[..n] + [links[n]];
      EnabledLinks(links[..n]) + (if links[n].isEnabled then [links[n]] else [])
  }

  /** The filter distributes over concatenation: enabled links keep their order and multiplicity. */
  lemma {:induction false} EnabledLinksAppend(a: seq<LinkGene>, b: seq<LinkGene>)
    ensures EnabledLinks(a + b) == EnabledLinks(a) + EnabledLinks(b)
    decreases |b|
  {
    if |b| > 0 {
      var n := |b| - 1;
      assert (a + b)[..|a + b| - 1] == a + b[..n];
      EnabledLinksAppend(a, b[..n]);
    } else {
      assert a + b == a;
    }
  }

  /** One more link at the end is kept exactly when it is enabled. */
  lemma EnabledLinksSnoc(s: seq<LinkGene>, l: LinkGene)
    ensures EnabledLinks(s + [l]) == EnabledLinks(s) + (if l.isEnabled then [l] else [])
  {
    assert (s + [l])[..|s|] == s;
  }

  /** With every link enabled, the filter keeps them all. */
  lemma {:induction false} EnabledLinksAll(links: seq<LinkGene>)
    requires forall k :: 0 <= k < |links| ==> links[k].isEnabled
    ensures EnabledLinks(links) == links
    decreases |links|
  {
    if |links| > 0 {
      var n := |links| - 1;
      var init := links[..n];
      assert links == init + [links[n]];
      EnabledLinksAll(init);
      EnabledLinksSnoc(init, links[n]);
    }
  }

  /** A single link is kept exactly when it is enabled. */
  lemma EnabledLinksSingle(l: LinkGene)
    ensures EnabledLinks([l]) == if l.isEnabled then [l] else []
  {
    assert [l][..0] == [];
  }

  /** The input a link gives its target neuron. */
  function AsInput(l: LinkGene): NeuronInput {
    NeuronInput(l.id.inId, l.weight)
  }

  /** The inputs of neuron `id`: one per link into it, in link order. */
  function InputsOf(links: seq<LinkGene>, id: int): (r: seq<NeuronInput>)
    ensures forall x :: x in r <==> exists l :: l in links && l.id.outId == id && x == AsInput(l)
    decreases |links|
  {
    if |links| == 0 then []
    else
      var n := |links| - 1;
      assert links == links[..n] + [links[n]];
      InputsOf(links[..n], id) + (if links[n].id.outId == id then [AsInput(links[n])] else [])
  }

  /** The inputs of a concatenation are the inputs of each part, in order. */
  lemma {:induction false} InputsOfAppend(a: seq<LinkGene>, b: seq<LinkGene>, id: int)
    ensures InputsOf(a + b, id) == InputsOf(a, id) + InputsOf(b, id)
    decreases |b|
  {
    if |b| > 0 {
      var n := |b| - 1;
      assert (a + b)[..|a + b| - 1] == a + b[..n];
      InputsOfAppend(a, b[..n], id);
    } else {
      assert a + b == a;
    }
  }

  /** A single link gives one input exactly when it enters `id`. */
  lemma InputsOfSingle(l: LinkGene, id: int)
    ensures InputsOf([l], id) == if l.id.outId == id then [AsInput(l)] else []
  {
    assert [l][..0] == [];
  }

  /** Neuron `n` is built from the genome: the gene's id and bias, the links into it as inputs. */
  predicate CompiledFrom(g: Genome, links: seq<LinkGene>, n: Neuron) {
    g.FindNeuron(n.id) == Some(NeuronGene(n.id, n.bias)) && n.inputs == InputsOf(links, n.id)
  }

  /** The neurons of one layer, in layer order; an id without a neuron gene is skipped. */
  function CompileLayer(g: Genome, links: seq<LinkGene>, layer: seq<int>): (r: seq<Neuron>)
    ensures forall n :: n in r ==> n.id in layer && CompiledFrom(g, links, n)
    ensures forall x :: x in layer && g.FindNeuron(x).Some? ==> x in NeuronIds(r)
    decreases |layer|
  {
    if |layer| == 0 then []
    else
      var n := |layer| - 1;
      var id := layer[n];
      assert layer == layer[..n] + [id];
      var init := CompileLayer(g, links, layer[..n]);
      match g.FindNeuron(id)
      case None => init
      case Some(gene) =>
        var neuron := Neuron(gene.id, gene.bias, InputsOf(links, id));
        NeuronIdsAppend(init, [neuron]);
        assert [neuron][0].id == id;
        init + [neuron]
  }

  /** One more id with a gene adds its neuron at the end. */
  lemma CompileLayerSnoc(g: Genome, links: seq<LinkGene>, layer: seq<int>)
    requires |layer| > 0 && g.FindNeuron(layer[|layer| - 1]).Some?
    ensures var n := |layer| - 1; var gene := g.FindNeuron(layer[n]).value;
      CompileLayer(g, links, layer) ==
        CompileLayer(g, links, layer[..n]) + [Neuron(gene.id, gene.bias, InputsOf(links, layer[n]))]
  {
  }

  /** When every id of the layer has a gene, the layer compiles to one neuron per id. */
  lemma {:induction false} CompileLayerAllFound(g: Genome, links: seq<LinkGene>, layer: seq<int>)
    requires forall k :: 0 <= k < |layer| ==> g.FindNeuron(layer[k]).Some?
    ensures |CompileLayer(g, links, layer)| == |layer|
    decreases |layer|
  {
    if |layer| > 0 {
      var n := |layer| - 1;
      var init := layer[..n];
      assert forall k :: 0 <= k < n ==> init[k] == layer[k];
      CompileLayerAllFound(g, links, init);
      CompileLayerSnoc(g, links, layer);
    }
  }

  /** The neurons of the layers, layer after layer. */
  function CompileLayers(g: Genome, links: seq<LinkGene>, layers: seq<seq<int>>): (r: seq<Neuron>)
    ensures forall n :: n in r ==> CompiledFrom(g, links, n)
    ensures forall k, x :: 0 <= k < |layers| && x in layers[k] && g.FindNeuron(x).Some? ==> x in NeuronIds(r)
    decreases |layers|
  {
    if |layers| == 0 then []
    else
      var n := |layers| - 1;
      assert forall k :: 0 <= k < n ==> layers[..n][k] == layers[k];
      var init := CompileLayers(g, links, layers[..n]);
      var last := CompileLayer(g, links, layers[n]);
      NeuronIdsAppend(init, last);
      init + last
  }

  /** Every compiled neuron belongs to one of the layers. */
  lemma {:induction false} CompiledFromLayers(g: Genome, links: seq<LinkGene>, layers: seq<seq<int>>)
    ensures forall n :: n in CompileLayers(g, links, layers) ==> exists k :: 0 <= k < |layers| && n.id in layers[k]
    decreases |layers|
  {
    if |layers| > 0 {
      var m := |layers| - 1;
      CompiledFromLayers(g, links, layers[..m]);
      forall n | n in CompileLayers(g, links, layers)
        ensures exists k :: 0 <= k < |layers| && n.id in layers[k]
      {
        if n in CompileLayers(g, links, layers[..m]) {
          var k :| 0 <= k < m && n.id in layers[..m][k];
          assert layers[..m][k] == layers[k];
        } else {
          assert n in CompileLayer(g, links, layers[m]);
        }
      }
    }
  }

  lemma NeuronIdsAppend(a: seq<Neuron>, b: seq<Neuron>)
    ensures NeuronIds(a + b) == NeuronIds(a) + NeuronIds(b)
  {
    var c := a + b;
    forall x | x in NeuronIds(a)
      ensures x in NeuronIds(c)
    {
      var k :| 0 <= k < |a| && a[k].id == x;
      assert c[k].id == x;
    }
    forall x | x in NeuronIds(c)
      ensures x in NeuronIds(a) + NeuronIds(b)
    {
      var k :| 0 <= k < |c| && c[k].id == x;
      if k >= |a| {
        assert b[k - |a|].id == x;
      }
    }
    forall x | x in NeuronIds(b)
      ensures x in NeuronIds(c)
    {
      var k :| 0 <= k < |b| && b[k].id == x;
      assert c[|a| + k].id == x;
    }
  }

  /** The inner loop of `create_from_genome`: one input per enabled link into `id`. */
  method CollectInputs(links: seq<LinkGene>, id: int) returns (inputs: seq<NeuronInput>)
    ensures inputs == InputsOf(links, id)
  {
    inputs := [];
    for i := 0 to |links|
      invariant inputs == InputsOf(links[..i], id)
    {
      assert links[..i + 1][..i] == links[..i];
      if id == links[i].id.outId {
        inputs := inputs + [AsInput(links[i])];
      }
    }
    assert links[..|links|] == links;
  }

  /** The loop over one layer of `create_from_genome`. */
  method BuildLayer(g: Genome, links: seq<LinkGene>, layer: seq<int>) returns (neurons: seq<Neuron>)
    ensures neurons == CompileLayer(g, links, layer)
  {
    neurons := [];
    for j := 0 to |layer|
      invariant neurons == CompileLayer(g, links, layer[..j])
    {
      assert layer[..j + 1][..j] == layer[..j];
      var neuronInputs := CollectInputs(links, layer[j]);
      var gene := g.FindNeuron(layer[j]);
      if gene.Some? {
        neurons := neurons + [Neuron(gene.value.id, gene.value.bias, neuronInputs)];
      }
    }
    assert layer[..|layer|] == layer;
  }

  /** The network `create_from_genome` builds from the given layering. */
  function Compile(g: Genome, layers: seq<seq<int>>): FeedForwardNetwork {
    FeedForwardNetwork(InputIds(g.numInputs), OutputIds(g.numInputs), CompileLayers(g, EnabledLinks(g.links), layers))
  }

  /** The layerings `feed_forward_layers` can return for the genome's enabled links. */
  ghost predicate GenomeLayering(g: Genome, layers: seq<seq<int>>) {
    LayersMatch(layers, Layering(InputIds(g.numInputs), OutputIds(g.numInputs), EnabledLinks(g.links)))
  }

  /**
   * `create_from_genome`: the input and output ids, then the neurons of the
   * layers of the enabled links, each with the enabled links into it.
   */
  method CreateFromGenome(g: Genome) returns (net: FeedForwardNetwork)
    ensures net.inputIds == InputIds(g.numInputs) && net.outputIds == OutputIds(g.numInputs)
    ensures exists layers :: GenomeLayering(g, layers) && net == Compile(g, layers)
  {
    var inputs := MakeInputIds(g);
    var outputs := MakeOutputIds(g);
    var enabled := EnabledLinks(g.links);
    var layers := FeedForwardLayers(inputs, outputs, enabled);
    var neurons: seq<Neuron> := [];
    for k := 0 to |layers|
      invariant neurons == CompileLayers(g, enabled, layers[..k])
    {
      assert layers[..k + 1][..k] == layers[..k];
      var layerNeurons := BuildLayer(g, enabled, layers[k]);
      neurons := neurons + layerNeurons;
    }
    assert layers[..|layers|] == layers;
    net := FeedForwardNetwork(inputs, outputs, neurons);
    assert GenomeLayering(g, layers) && net == Compile(g, layers);
  }

  /** Appending neurons whose inputs are all available after `a` keeps a network feed-forward. */
  lemma FeedsForwardAppend(inputIds: seq<int>, outputIds: seq<int>, a: seq<Neuron>, b: seq<Neuron>)
    requires FeedsForward(FeedForwardNetwork(inputIds, outputIds, a))
    requires forall n, i :: n in b && 0 <= i < |n.inputs| ==>
      n.inputs[i].inputId in inputIds || 0 <= n.inputs[i].inputId < |outputIds| || n.inputs[i].inputId in NeuronIds(a)
    ensures FeedsForward(FeedForwardNetwork(inputIds, outputIds, a + b))
  {
    var net := FeedForwardNetwork(inputIds, outputIds, a + b);
    forall j, i | 0 <= j < |net.neurons| && 0 <= i < |net.neurons[j].inputs|
      ensures Available(net, j, net.neurons[j].inputs[i].inputId)
    {
      var x := net.neurons[j].inputs[i].inputId;
      if j < |a| {
        assert a[j] == net.neurons[j];
        assert Available(FeedForwardNetwork(inputIds, outputIds, a), j, x);
        if x !in inputIds && !(0 <= x < |outputIds|) {
          var m :| 0 <= m < j && m < |a| && a[m].id == x;
          assert net.neurons[m].id == x;
        }
      } else {
        assert net.neurons[j] == b[j - |a|];
        if x !in inputIds && !(0 <= x < |outputIds|) {
          var m :| 0 <= m < |a| && a[m].id == x;
          assert net.neurons[m].id == x;
        }
      }
    }
  }

  /** Every enabled link comes from a neuron the genome has a gene for. */
  predicate SourcesExist(g: Genome) {
    forall l :: l in g.links && l.isEnabled ==> g.FindNeuron(l.id.inId).Some?
  }

  /**
   * An input of a neuron in layer k is an input neuron or a neuron of an
   * earlier layer, which the network holds.
   */
  lemma LayerInputAvailable(g: Genome, layers: seq<seq<int>>, k: nat, l: LinkGene)
    requires GenomeLayering(g, layers) && SourcesExist(g) && k < |layers|
    requires l in EnabledLinks(g.links) && l.id.outId in layers[k]
    ensures l.id.inId in InputIds(g.numInputs) || l.id.inId in NeuronIds(CompileLayers(g, EnabledLinks(g.links), layers[..k]))
  {
    var ins, outs, enabled := InputIds(g.numInputs), OutputIds(g.numInputs), EnabledLinks(g.links);
    var spec := Layering(ins, outs, enabled);
    var required := Required(ins, outs, enabled);
    var x := l.id.inId;
    assert LayerMatches(layers[k], spec[k]);
    LayeringWellFormed(ins, outs, enabled);
    RequiredClosed(ins, outs, enabled);
    var i :| 0 <= i < |enabled| && enabled[i] == l;
    assert l.id.outId in spec[k];
    if x !in ins {
      assert x in required;
      assert AvailableBefore(spec, Elems(ins), k, x);
      var j :| 0 <= j < k && j < |spec| && x in spec[j];
      assert LayerMatches(layers[j], spec[j]);
      assert layers[..k][j] == layers[j];
    }
  }

  lemma {:induction false} CompiledPrefixFeedsForward(g: Genome, layers: seq<seq<int>>, k: nat)
    requires GenomeLayering(g, layers) && SourcesExist(g) && k <= |layers|
    ensures FeedsForward(Compile(g, layers[..k]))
  {
    var enabled := EnabledLinks(g.links);
    if k > 0 {
      CompiledPrefixFeedsForward(g, layers, k - 1);
      assert layers[..k][..k - 1] == layers[..k - 1];
      var a := CompileLayers(g, enabled, layers[..k - 1]);
      var b := CompileLayer(g, enabled, layers[k - 1]);
      assert CompileLayers(g, enabled, layers[..k]) == a + b;
      forall n, i | n in b && 0 <= i < |n.inputs|
        ensures n.inputs[i].inputId in InputIds(g.numInputs) || n.inputs[i].inputId in NeuronIds(a)
      {
        assert n.inputs[i] in InputsOf(enabled, n.id);
        var l :| l in enabled && l.id.outId == n.id && n.inputs[i] == AsInput(l);
        LayerInputAvailable(g, layers, k - 1, l);
      }
      FeedsForwardAppend(InputIds(g.numInputs), OutputIds(g.numInputs), a, b);
    }
  }

  /**
   * When every enabled link comes from a neuron of the genome, the network
   * `create_from_genome` builds never panics in `activate`: every neuron
   * reads only values already stored, and every output id is one of the
   * keys zeroed before the neurons fire.
   */
  lemma CompiledNetworkActivates(g: Genome, layers: seq<seq<int>>, inputs: seq<real>)
    requires GenomeLayering(g, layers) && SourcesExist(g)
    requires |inputs| == |InputIds(g.numInputs)|
    ensures FeedsForward(Compile(g, layers))
    ensures ActivateSpec(Compile(g, layers), inputs).Some?
  {
    CompiledPrefixFeedsForward(g, layers, |layers|);
    assert layers[..|layers|] == layers;
    var net := Compile(g, layers);
    FeedForwardActivates(net, inputs);
    forall i | 0 <= i < |net.outputIds|
      ensures Available(net, |net.neurons|, net.outputIds[i])
    {
      assert net.outputIds[i] == i;
    }
  }

  /** A genome as `Genome::new` builds it links inputs only, and holds a gene for each input. */
  lemma FreshGenomeSourcesExist(id: int, ni: nat, no: nat, lo: real, hi: real, d: GenomeDraws)
    requires Sized(d, ni, no)
    ensures SourcesExist(FreshGenome(id, ni, no, lo, hi, d))
  {
    var g := FreshGenome(id, ni, no, lo, hi, d);
    FullLinksRange(ni, no, d.weight, lo, hi);
    forall l | l in g.links && l.isEnabled
      ensures g.FindNeuron(l.id.inId).Some?
    {
      assert InitialLink(l, ni, no, lo, hi);
      var k := no + (-l.id.inId - 1);
      assert g.neurons[k].id == l.id.inId;
    }
  }

  /** Three output neurons, each reading the three inputs with weights 1, 2 and 3. */
  function ExampleNetwork(): FeedForwardNetwork {
    var ins := ExampleInputs();
    FeedForwardNetwork([-1, -2, -3], [0, 1, 2],
      [Neuron(0, 0.0, ins), Neuron(1, 1.0, ins), Neuron(2, 2.0, ins)])
  }

  function ExampleInputs(): seq<NeuronInput> {
    [NeuronInput(-1, 1.0), NeuronInput(-2, 2.0), NeuronInput(-3, 3.0)]
  }

  lemma ExampleSeed()
    ensures Seed(ExampleNetwork(), [1.0, 2.0, 3.0]) == map[-1 := 1.0, -2 := 2.0, -3 := 3.0, 0 := 0.0, 1 := 0.0, 2 := 0.0]
  {
    var ids, xs := [-1, -2, -3], [1.0, 2.0, 3.0];
    assert ids[..2] == [-1, -2] && ids[..2][..1] == [-1] && ids[..2][..1][..0] == [];
    assert xs[..2] == [1.0, 2.0] && xs[..2][..1] == [1.0] && xs[..2][..1][..0] == [];
    assert LoadInputs(ids[..2][..1], xs[..2][..1]) == map[-1 := 1.0];
    assert LoadInputs(ids[..2], xs[..2]) == map[-1 := 1.0, -2 := 2.0];
    var loaded := LoadInputs(ids, xs);
    assert loaded == map[-1 := 1.0, -2 := 2.0, -3 := 3.0];
    assert ZeroOutputs(loaded, 1) == loaded[0 := 0.0];
    assert ZeroOutputs(loaded, 2) == loaded[0 := 0.0][1 := 0.0];
    assert ZeroOutputs(loaded, 3) == loaded[0 := 0.0][1 := 0.0][2 := 0.0];
  }

  lemma ExampleSum(m: map<int, real>)
    requires -1 in m && -2 in m && -3 in m
    requires m[-1] == 1.0 && m[-2] == 2.0 && m[-3] == 3.0
    ensures WeightedSum(ExampleInputs(), m) == Some(14.0)
  {
    var ins := ExampleInputs();
    assert ins[..2] == [ins[0], ins[1]] && ins[..2][..1] == [ins[0]] && ins[..2][..1][..0] == [];
    assert WeightedSum(ins[..2][..1], m) == Some(1.0);
    assert WeightedSum(ins[..2], m) == Some(5.0);
  }

  lemma PropagateStep(neurons: seq<Neuron>, outputIds: seq<int>, values: map<int, real>, m: map<int, real>, v: real)
    requires |neurons| > 0
    requires Propagate(neurons[..|neurons| - 1], outputIds, values) == Some(m)
    requires Fire(neurons[|neurons| - 1], outputIds, m) == Some(v)
    ensures Propagate(neurons, outputIds, values) == Some(m[neurons[|neurons| - 1].id := v])
  {
  }

  lemma ExampleRead(m: map<int, real>)
    requires 0 in m && 1 in m && 2 in m
    ensures ReadOutputs([0, 1, 2], m) == Some([m[0], m[1], m[2]])
  {
    var r := ReadOutputs([0, 1, 2], m).value;
    assert |r| == 3 && r[0] == m[0] && r[1] == m[1] && r[2] == m[2];
    assert r == [m[0], m[1], m[2]];
  }

  /** On inputs 1, 2, 3 each output neuron gives 1 + 4 + 9 plus its bias. */
  lemma ExampleActivation()
    ensures ActivateSpec(ExampleNetwork(), [1.0, 2.0, 3.0]) == Some([14.0, 15.0, 16.0])
  {
    var net := ExampleNetwork();
    var seed := map[-1 := 1.0, -2 := 2.0, -3 := 3.0, 0 := 0.0, 1 := 0.0, 2 := 0.0];
    ExampleSeed();
    var ns, outs := net.neurons, net.outputIds;
    assert ns[..2] == [ns[0], ns[1]] && ns[..2][..1] == [ns[0]] && ns[..2][..1][..0] == [];
    var m1 := seed[0 := 14.0];
    var m2 := m1[1 := 15.0];
    var m3 := m2[2 := 16.0];
    ExampleSum(seed);
    assert Fire(ns[0], outs, seed) == Some(14.0);
    PropagateStep(ns[..2][..1], outs, seed, seed, 14.0);
    ExampleSum(m1);
    assert Fire(ns[1], outs, m1) == Some(15.0);
    PropagateStep(ns[..2], outs, seed, m1, 15.0);
    ExampleSum(m2);
    assert Fire(ns[2], outs, m2) == Some(16.0);
    PropagateStep(ns, outs, seed, m2, 16.0);
    ExampleRead(m3);
  }

  // ---------------------------------------------------------------------
  // create_from_genome_test

  /** Every input `-i` linked to the outputs 0, 1 and 2 with weight `w`. */
  function ExampleRow(i: int, w: real): seq<LinkGene> {
    [LinkGene(LinkId(i, 0), w, true), LinkGene(LinkId(i, 1), w, true), LinkGene(LinkId(i, 2), w, true)]
  }

  /**
   * Three inputs, three outputs, every neuron's bias its id and every link
   * from input `-i` weighted `i`: the genome whose network is
   * `ExampleNetwork`.
   */
  function ExampleGenome(): Genome {
    Genome(1, 3, 3,
           [NeuronGene(-1, -1.0), NeuronGene(-2, -2.0), NeuronGene(-3, -3.0),
            NeuronGene(0, 0.0), NeuronGene(1, 1.0), NeuronGene(2, 2.0)],
           ExampleRow(-1, 1.0) + ExampleRow(-2, 2.0) + ExampleRow(-3, 3.0))
  }

  lemma ExampleRowInputs(i: int, w: real, x: int)
    requires 0 <= x < 3
    ensures InputsOf(ExampleRow(i, w), x) == [NeuronInput(i, w)]
  {
    var r := ExampleRow(i, w);
    assert r == [r[0]] + [r[1]] + [r[2]];
    InputsOfAppend([r[0]] + [r[1]], [r[2]], x);
    InputsOfAppend([r[0]], [r[1]], x);
    InputsOfSingle(r[0], x);
    InputsOfSingle(r[1], x);
    InputsOfSingle(r[2], x);
  }

  /** Each output reads the three inputs, in link order. */
  lemma ExampleGenomeInputs(x: int)
    requires 0 <= x < 3
    ensures InputsOf(ExampleGenome().links, x) == ExampleInputs()
  {
    var a, b, c := ExampleRow(-1, 1.0), ExampleRow(-2, 2.0), ExampleRow(-3, 3.0);
    InputsOfAppend(a + b, c, x);
    InputsOfAppend(a, b, x);
    ExampleRowInputs(-1, 1.0, x);
    ExampleRowInputs(-2, 2.0, x);
    ExampleRowInputs(-3, 3.0, x);
  }

  /** Every link of `ExampleGenome` is enabled and runs from an input to an output. */
  lemma ExampleLinksDirect()
    ensures var links := ExampleGenome().links;
      forall k :: 0 <= k < |links| ==>
        links[k].isEnabled && links[k].id.inId in InputIds(3) && links[k].id.outId in OutputIds(3)
  {
    var links := ExampleGenome().links;
    forall k | 0 <= k < |links|
      ensures links[k].isEnabled && links[k].id.inId in InputIds(3) && links[k].id.outId in OutputIds(3)
    {
      InputIdsMembers(3, links[k].id.inId);
      OutputIdsMembers(3, links[k].id.outId);
    }
  }

  /** Each output of `ExampleGenome` has a link into it. */
  lemma ExampleOutputsFed()
    ensures var links := ExampleGenome().links;
      forall o :: o in OutputIds(3) ==> exists k :: 0 <= k < |links| && links[k].id.outId == o
  {
    var links := ExampleGenome().links;
    forall o | o in OutputIds(3)
      ensures exists k :: 0 <= k < |links| && links[k].id.outId == o
    {
      OutputIdsMembers(3, o);
      assert links[o].id.outId == o;
    }
  }

  lemma InputsAreNotOutputs(n: int)
    ensures forall x :: x in InputIds(n) ==> x !in OutputIds(n)
  {
    forall x | x in InputIds(n)
      ensures x !in OutputIds(n)
    {
      InputIdsMembers(n, x);
      OutputIdsMembers(n, x);
    }
  }

  /** The genome's links are all enabled and run from an input to an output, so its only layer is the outputs. */
  lemma ExampleGenomeLayering()
    ensures EnabledLinks(ExampleGenome().links) == ExampleGenome().links
    ensures Layering(InputIds(3), OutputIds(3), ExampleGenome().links) == [Elems(OutputIds(3))]
  {
    ExampleLinksDirect();
    EnabledLinksAll(ExampleGenome().links);
    InputsAreNotOutputs(3);
    ExampleOutputsFed();
    assert OutputIds(3)[0] in OutputIds(3);
    DirectLayering(InputIds(3), OutputIds(3), ExampleGenome().links);
  }

  /** The gene of output `x` has bias `x`. */
  lemma ExampleFindNeuron(x: int)
    requires 0 <= x < 3
    ensures ExampleGenome().FindNeuron(x) == Some(NeuronGene(x, x as real))
  {
    var neurons := ExampleGenome().neurons;
    var p := NeuronPosition(neurons, x);
    assert neurons[x + 3].id == x;
    assert p.Some? && p.value <= x + 3;
    assert p.value == x + 3;
  }

  /**
   * A layer whose every id has a gene with that id as its bias and the
   * inputs `ins` compiles to the neurons `Neuron(x, x, ins)`, one per id.
   */
  lemma CompileUniformLayer(g: Genome, links: seq<LinkGene>, layer: seq<int>, ins: seq<NeuronInput>, expected: seq<Neuron>)
    requires |expected| == |layer|
    requires forall x :: x in layer ==> g.FindNeuron(x) == Some(NeuronGene(x, x as real)) && InputsOf(links, x) == ins
    requires forall i, j :: 0 <= i < j < |expected| ==> expected[i] != expected[j]
    requires forall n :: n in expected ==> n.id in layer && n == Neuron(n.id, n.id as real, ins)
    ensures multiset(CompileLayer(g, links, layer)) == multiset(expected)
  {
    var neurons := CompileLayer(g, links, layer);
    CompileLayerAllFound(g, links, layer);
    forall n | n in expected
      ensures n in neurons
    {
      var k :| 0 <= k < |neurons| && neurons[k].id == n.id;
    }
    CoverSameMultiset(neurons, expected);
  }

  /** A sequence as long as a repeat-free one that holds all its members is a rearrangement of it. */
  lemma CoverSameMultiset<T>(s: seq<T>, t: seq<T>)
    requires |s| == |t| && forall i, j :: 0 <= i < j < |t| ==> t[i] != t[j]
    requires forall x :: x in t ==> x in s
    ensures multiset(s) == multiset(t)
  {
    var a, b := multiset(t), multiset(s);
    forall x
      ensures a[x] <= b[x]
    {
      DistinctCount(t, x);
    }
    assert b == a + (b - a);
    assert |b - a| == 0;
  }

  lemma OutputLayerIds(layer: seq<int>)
    requires LayerMatches(layer, Elems(OutputIds(3)))
    ensures forall x :: x in layer <==> 0 <= x < 3
    ensures |layer| == 3
  {
    forall x
      ensures x in layer <==> 0 <= x < 3
      ensures x in Elems(layer) <==> x in {0, 1} + {2}
    {
      OutputIdsMembers(3, x);
      assert x in layer <==> x in Elems(layer);
    }
    DistinctCard(layer);
    assert Elems(layer) == {0, 1} + {2};
  }

  /** However the outputs are ordered in the layer, the layer compiles to the expected neurons. */
  lemma ExampleLayer(layer: seq<int>)
    requires LayerMatches(layer, Elems(OutputIds(3)))
    ensures multiset(CompileLayer(ExampleGenome(), ExampleGenome().links, layer)) == multiset(ExampleNetwork().neurons)
  {
    OutputLayerIds(layer);
    forall x | x in layer
      ensures ExampleGenome().FindNeuron(x) == Some(NeuronGene(x, x as real))
      ensures InputsOf(ExampleGenome().links, x) == ExampleInputs()
    {
      ExampleFindNeuron(x);
      ExampleGenomeInputs(x);
    }
    CompileUniformLayer(ExampleGenome(), ExampleGenome().links, layer, ExampleInputs(), ExampleNetwork().neurons);
  }

  /** In a sequence without repeats, each member occurs once. */
  lemma {:induction false} DistinctCount<T>(s: seq<T>, x: T)
    requires forall i, j :: 0 <= i < j < |s| ==> s[i] != s[j]
    ensures multiset(s)[x] == if x in s then 1 else 0
    decreases |s|
  {
    if |s| > 0 {
      var n := |s| - 1;
      assert s == s[..n] + [s[n]];
      DistinctCount(s[..n], x);
    }
  }

  /**
   * `create_from_genome_test`: whichever order the layer comes in, the
   * network built from `ExampleGenome` has the expected input and output
   * ids and, once its neurons are sorted by id, the expected neurons.
   */
  lemma CreateFromGenomeExample(layers: seq<seq<int>>)
    requires GenomeLayering(ExampleGenome(), layers)
    ensures var net := Compile(ExampleGenome(), layers);
      && net.inputIds == ExampleNetwork().inputIds
      && net.outputIds == ExampleNetwork().outputIds
      && multiset(net.neurons) == multiset(ExampleNetwork().neurons)
  {
    ExampleIds();
    ExampleLayers(layers);
    ExampleLayer(layers[0]);
    CompileOneLayer(ExampleGenome(), ExampleGenome().links, layers);
  }

  lemma ExampleIds()
    ensures InputIds(3) == [-1, -2, -3] && OutputIds(3) == [0, 1, 2]
  {
  }

  /** `feed_forward_layers` returns the three outputs, in some order, as the one layer. */
  lemma ExampleLayers(layers: seq<seq<int>>)
    requires GenomeLayering(ExampleGenome(), layers)
    ensures EnabledLinks(ExampleGenome().links) == ExampleGenome().links
    ensures |layers| == 1 && LayerMatches(layers[0], Elems(OutputIds(3)))
  {
    ExampleGenomeLayering();
  }

  lemma CompileOneLayer(g: Genome, links: seq<LinkGene>, layers: seq<seq<int>>)
    requires |layers| == 1
    ensures CompileLayers(g, links, layers) == CompileLayer(g, links, layers[0])
  {
    assert layers[..0] == [];
  }
}
