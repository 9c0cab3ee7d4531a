/**
 * The two graph passes that plan a network evaluation: the backward closure
 * of neurons an output depends on (`required_for_output`), and the forward
 * layering of those neurons into evaluation order (`feed_forward_layers`).
 *
 * Hash sets are Dafny sets. `feed_forward_layers` walks a hash set in an
 * order the program does not fix; the model picks elements arbitrarily, so
 * each layer's content is determined and its order is not.
 */
module Layers {
  import opened Genes
  import opened LinkGraph

  /** The source ids of the links. */
  ghost function InIds(links: seq<LinkGene>): set<int> {
    set k | 0 <= k < |links| :: links[k].id.inId
  }

  /** The target ids of the links. */
  ghost function OutIds(links: seq<LinkGene>): set<int> {
    set k | 0 <= k < |links| :: links[k].id.outId
  }

  function Elems(s: seq<int>): set<int> {
    set x | x in s
  }

  predicate Distinct(s: seq<int>) {
    forall i, j :: 0 <= i < j < |s| ==> s[i] != s[j]
  }

  /** A sequence without repeats has as many distinct members as elements. */
  lemma {:induction false} DistinctCard(s: seq<int>)
    requires Distinct(s)
    ensures |Elems(s)| == |s|
    decreases |s|
  {
    if |s| > 0 {
      var n := |s| - 1;
      DistinctCard(s[..n]);
      assert Elems(s) == Elems(s[..n]) + {s[n]};
    }
  }

  lemma DifferenceShrinks(u: set<int>, s: set<int>, t: set<int>)
    requires t != {} && t <= u && t !! s
    ensures |u - (s + t)| < |u - s|
  {
    assert u - s == (u - (s + t)) + t;
  }

  // ---------------------------------------------------------------------
  // required_for_output

  /** The sources of links that enter `s` from outside it. */
  function Feeding(links: seq<LinkGene>, s: set<int>): set<int> {
    set k | 0 <= k < |links| && links[k].id.outId in s && links[k].id.inId !in s :: links[k].id.inId
  }

  /** The backward closure from the frontier `s`, adding to `required` each step's non-input sources. */
  ghost function RequiredFrom(inputs: seq<int>, links: seq<LinkGene>, required: set<int>, s: set<int>): set<int>
    decreases |InIds(links) - s|
  {
    var t := Feeding(links, s);
    if t == {} then required
    else
      var layer := set x | x in t && x !in inputs;
      if layer == {} then required
      else
        DifferenceShrinks(InIds(links), s, t);
        RequiredFrom(inputs, links, required + layer, s + t)
  }

  ghost function Required(inputs: seq<int>, outputs: seq<int>, links: seq<LinkGene>): set<int> {
    RequiredFrom(inputs, links, Elems(outputs), Elems(outputs))
  }

  /** `x` has a path, along any links, to one of `outputs`. */
  ghost predicate ReachesOutput(links: seq<LinkGene>, outputs: set<int>, x: int) {
    exists o :: o in outputs && Reachable(Edges(links), x, o)
  }

  /** Every required neuron that is not an output is not an input either. */
  predicate NoInputsAdded(inputs: seq<int>, outputs: set<int>, required: set<int>) {
    forall x :: x in required && x !in outputs ==> x !in inputs
  }

  ghost predicate AllReachOutput(links: seq<LinkGene>, outputs: set<int>, s: set<int>) {
    forall x :: x in s ==> ReachesOutput(links, outputs, x)
  }

  /** A source feeding a set whose members all reach an output reaches one too. */
  lemma FeedingReachesOutput(links: seq<LinkGene>, outputs: set<int>, s: set<int>)
    requires AllReachOutput(links, outputs, s)
    ensures AllReachOutput(links, outputs, s + Feeding(links, s))
  {
    forall x | x in Feeding(links, s)
      ensures ReachesOutput(links, outputs, x)
    {
      var k :| 0 <= k < |links| && links[k].id.outId in s && links[k].id.inId !in s && links[k].id.inId == x;
      var y := links[k].id.outId;
      assert ReachesOutput(links, outputs, y);
      var o :| o in outputs && Reachable(Edges(links), y, o);
      assert Edges(links)[k] == LinkId(x, y);
      ReachEdge(Edges(links), x, y);
      ReachTrans(Edges(links), x, y, o);
    }
  }

  lemma {:induction false} RequiredFromProperties(inputs: seq<int>, outputs: set<int>, links: seq<LinkGene>, required: set<int>, s: set<int>)
    requires outputs <= required <= s
    requires NoInputsAdded(inputs, outputs, required) && AllReachOutput(links, outputs, s)
    ensures required <= RequiredFrom(inputs, links, required, s)
    ensures NoInputsAdded(inputs, outputs, RequiredFrom(inputs, links, required, s))
    ensures AllReachOutput(links, outputs, RequiredFrom(inputs, links, required, s))
    decreases |InIds(links) - s|
  {
    var t := Feeding(links, s);
    var layer := set x | x in t && x !in inputs;
    if t != {} && layer != {} {
      DifferenceShrinks(InIds(links), s, t);
      FeedingReachesOutput(links, outputs, s);
      RequiredFromProperties(inputs, outputs, links, required + layer, s + t);
    }
  }

  /**
   * What `required_for_output` promises: every output is required, and every
   * other required neuron is not an input and has a path to an output.
   */
  lemma RequiredProperties(inputs: seq<int>, outputs: seq<int>, links: seq<LinkGene>)
    ensures var r := Required(inputs, outputs, links);
      && (forall o :: o in outputs ==> o in r)
      && (forall x :: x in r && x !in outputs ==> x !in inputs)
      && (forall x :: x in r ==> ReachesOutput(links, Elems(outputs), x))
  {
    var outs := Elems(outputs);
    forall x | x in outs
      ensures ReachesOutput(links, outs, x)
    {
      ReachRefl(Edges(links), x);
    }
    RequiredFromProperties(inputs, outs, links, outs, outs);
  }

  /** A link into `s` comes from `s` or from an input. */
  predicate ClosedUnderLinks(inputs: seq<int>, links: seq<LinkGene>, s: set<int>) {
    forall i :: 0 <= i < |links| && links[i].id.outId in s ==> links[i].id.inId in s || links[i].id.inId in inputs
  }

  lemma {:induction false} RequiredFromClosed(inputs: seq<int>, links: seq<LinkGene>, required: set<int>, s: set<int>)
    requires required <= s && forall x :: x in s ==> x in required || x in inputs
    ensures ClosedUnderLinks(inputs, links, RequiredFrom(inputs, links, required, s))
    decreases |InIds(links) - s|
  {
    var t := Feeding(links, s);
    var layer := set x | x in t && x !in inputs;
    if t != {} && layer != {} {
      DifferenceShrinks(InIds(links), s, t);
      RequiredFromClosed(inputs, links, required + layer, s + t);
    } else {
      forall i | 0 <= i < |links| && links[i].id.outId in required && links[i].id.inId !in required
        ensures links[i].id.inId in inputs
      {
        if links[i].id.inId !in s {
          assert links[i].id.inId in t;
        }
      }
    }
  }

  /**
   * The closure `required_for_output` computes is complete: every source of
   * a link into a required neuron is required or an input.
   */
  lemma RequiredClosed(inputs: seq<int>, outputs: seq<int>, links: seq<LinkGene>)
    ensures ClosedUnderLinks(inputs, links, Required(inputs, outputs, links))
  {
    RequiredFromClosed(inputs, links, Elems(outputs), Elems(outputs));
  }

  /** `required_for_output`: grow the frontier backwards until it stops gaining non-input neurons. */
  method RequiredForOutput(inputs: seq<int>, outputs: seq<int>, links: seq<LinkGene>) returns (required: set<int>)
    ensures required == Required(inputs, outputs, links)
  {
    required := set i | i in outputs;
    var s := required;
    while true
      invariant RequiredFrom(inputs, links, required, s) == Required(inputs, outputs, links)
      decreases |InIds(links) - s|
    {
      var t := Feeding(links, s);
      if t == {} {
        break;
      }
      var layerNodes := set x | x in t && x !in inputs;
      if layerNodes == {} {
        break;
      }
      DifferenceShrinks(InIds(links), s, t);
      required := required + layerNodes;
      s := s + t;
    }
  }

  // ---------------------------------------------------------------------
  // feed_forward_layers

  /** The targets of links that leave `p` for a node outside it. */
  function Candidates(links: seq<LinkGene>, p: set<int>): set<int> {
    set k | 0 <= k < |links| && links[k].id.inId in p && links[k].id.outId !in p :: links[k].id.outId
  }

  /** The required sources of the links into `n`, in link order. */
  function InputsTo(links: seq<LinkGene>, required: set<int>, n: int): (r: seq<int>)
    ensures |r| <= |links|
  {
    if |links| == 0 then []
    else
      var last := links[|links| - 1];
      InputsTo(links[..|links| - 1], required, n) +
        (if last.id.outId == n && last.id.inId in required then [last.id.inId] else [])
  }

  /** The sources listed for a concatenation are those of each part, in order. */
  lemma {:induction false} InputsToAppend(a: seq<LinkGene>, b: seq<LinkGene>, required: set<int>, n: int)
    ensures InputsTo(a + b, required, n) == InputsTo(a, required, n) + InputsTo(b, required, n)
    decreases |b|
  {
    if |b| > 0 {
      var m := |b| - 1;
      assert (a + b)[..|a + b| - 1] == a + b[..m];
      InputsToAppend(a, b[..m], required, n);
    } else {
      assert a + b == a;
    }
  }

  /** A single link lists its source exactly when it enters `n` from a required neuron. */
  lemma InputsToSingle(l: LinkGene, required: set<int>, n: int)
    ensures InputsTo([l], required, n) == if l.id.outId == n && l.id.inId in required then [l.id.inId] else []
  {
    assert [l][..0] == [];
  }

  /** The sources listed are exactly the required sources of links into `n`. */
  lemma {:induction false} InputsToMembers(links: seq<LinkGene>, required: set<int>, n: int)
    ensures forall x :: x in InputsTo(links, required, n) <==>
      exists k :: 0 <= k < |links| && links[k].id == LinkId(x, n) && x in required
  {
    if |links| > 0 {
      var init := links[..|links| - 1];
      InputsToMembers(init, required, n);
      assert forall k :: 0 <= k < |init| ==> init[k] == links[k];
    }
  }

  /** `n` is required and every required source feeding it is already available. */
  predicate Ready(links: seq<LinkGene>, required: set<int>, p: set<int>, n: int) {
    n in required && forall x :: x in InputsTo(links, required, n) ==> x in p
  }

  function NextLayer(links: seq<LinkGene>, required: set<int>, p: set<int>): set<int> {
    set n | n in Candidates(links, p) && Ready(links, required, p, n)
  }

  lemma NextLayerFacts(links: seq<LinkGene>, required: set<int>, p: set<int>)
    ensures var next := NextLayer(links, required, p);
      next <= OutIds(links) && next !! p && next <= required
  {
    var next := NextLayer(links, required, p);
    forall n | n in next
      ensures n in OutIds(links) && n !in p
    {
      var k :| 0 <= k < |links| && links[k].id.inId in p && links[k].id.outId !in p && links[k].id.outId == n;
    }
  }

  /** The layers found from the available set `p` on. */
  ghost function LayersFrom(links: seq<LinkGene>, required: set<int>, p: set<int>): seq<set<int>>
    decreases |OutIds(links) - p|
  {
    var next := NextLayer(links, required, p);
    if next == {} then []
    else
      NextLayerFacts(links, required, p);
      DifferenceShrinks(OutIds(links), p, next);
      [next] + LayersFrom(links, required, p + next)
  }

  ghost function Layering(inputs: seq<int>, outputs: seq<int>, links: seq<LinkGene>): seq<set<int>> {
    LayersFrom(links, Required(inputs, outputs, links), Elems(inputs))
  }

  /** `m` is available before layer `k`: it is in `p` or in an earlier layer. */
  ghost predicate AvailableBefore(layers: seq<set<int>>, p: set<int>, k: int, m: int) {
    m in p || exists j :: 0 <= j < k && j < |layers| && m in layers[j]
  }

  /** Each layer is non-empty, holds required neurons only and none of `p`. */
  ghost predicate LayersFresh(required: set<int>, p: set<int>, layers: seq<set<int>>) {
    forall k :: 0 <= k < |layers| ==> layers[k] != {} && layers[k] <= required && layers[k] !! p
  }

  ghost predicate LayersDisjoint(layers: seq<set<int>>) {
    forall j, k :: 0 <= j < k < |layers| ==> layers[j] !! layers[k]
  }

  /** Every required source of a link into layer k is available before layer k. */
  ghost predicate LayersOrdered(links: seq<LinkGene>, required: set<int>, p: set<int>, layers: seq<set<int>>) {
    forall k, i ::
      (0 <= k < |layers| && 0 <= i < |links| &&
       links[i].id.outId in layers[k] && links[i].id.inId in required) ==>
        AvailableBefore(layers, p, k, links[i].id.inId)
  }

  ghost predicate LayersWellFormed(links: seq<LinkGene>, required: set<int>, p: set<int>, layers: seq<set<int>>) {
    LayersFresh(required, p, layers) && LayersDisjoint(layers) && LayersOrdered(links, required, p, layers)
  }

  lemma LayersFromUnfold(links: seq<LinkGene>, required: set<int>, p: set<int>)
    requires NextLayer(links, required, p) != {}
    ensures LayersFrom(links, required, p) ==
      [NextLayer(links, required, p)] + LayersFrom(links, required, p + NextLayer(links, required, p))
  {
  }

  lemma LayersFromEmpty(links: seq<LinkGene>, required: set<int>, p: set<int>)
    requires NextLayer(links, required, p) == {}
    ensures LayersFrom(links, required, p) == []
  {
  }

  lemma {:induction false} LayersFromFresh(links: seq<LinkGene>, required: set<int>, p: set<int>)
    ensures LayersFresh(required, p, LayersFrom(links, required, p))
    decreases |OutIds(links) - p|
  {
    var next := NextLayer(links, required, p);
    if next != {} {
      NextLayerFacts(links, required, p);
      DifferenceShrinks(OutIds(links), p, next);
      var rest := LayersFrom(links, required, p + next);
      LayersFromFresh(links, required, p + next);
      LayersFromUnfold(links, required, p);
      LayersFreshCons(required, p, next, rest);
    }
  }

  lemma LayersFreshCons(required: set<int>, p: set<int>, next: set<int>, rest: seq<set<int>>)
    requires next != {} && next <= required && next !! p
    requires LayersFresh(required, p + next, rest)
    ensures LayersFresh(required, p, [next] + rest)
  {
    var layers := [next] + rest;
    forall k | 0 <= k < |layers|
      ensures layers[k] != {} && layers[k] <= required && layers[k] !! p
    {
      if k > 0 {
        assert layers[k] == rest[k - 1];
      }
    }
  }

  lemma LayersDisjointCons(p: set<int>, next: set<int>, rest: seq<set<int>>)
    requires LayersDisjoint(rest)
    requires forall k :: 0 <= k < |rest| ==> rest[k] !! (p + next)
    ensures LayersDisjoint([next] + rest)
  {
    var layers := [next] + rest;
    forall j, k | 0 <= j < k < |layers|
      ensures layers[j] !! layers[k]
    {
      assert layers[k] == rest[k - 1];
      if j > 0 {
        assert layers[j] == rest[j - 1];
      }
    }
  }

  lemma {:induction false} LayersFromDisjoint(links: seq<LinkGene>, required: set<int>, p: set<int>)
    ensures LayersDisjoint(LayersFrom(links, required, p))
    decreases |OutIds(links) - p|
  {
    var next := NextLayer(links, required, p);
    if next != {} {
      NextLayerFacts(links, required, p);
      DifferenceShrinks(OutIds(links), p, next);
      var rest := LayersFrom(links, required, p + next);
      LayersFromDisjoint(links, required, p + next);
      LayersFromFresh(links, required, p + next);
      LayersFromUnfold(links, required, p);
      LayersDisjointCons(p, next, rest);
    }
  }

  /** Every required source of a link into the next layer is already available. */
  lemma NextLayerFed(links: seq<LinkGene>, required: set<int>, p: set<int>)
    ensures forall i ::
      (0 <= i < |links| && links[i].id.outId in NextLayer(links, required, p) &&
       links[i].id.inId in required) ==> links[i].id.inId in p
  {
    forall i | 0 <= i < |links| && links[i].id.outId in NextLayer(links, required, p) && links[i].id.inId in required
      ensures links[i].id.inId in p
    {
      var n := links[i].id.outId;
      assert Ready(links, required, p, n);
      assert links[i].id == LinkId(links[i].id.inId, n);
      InputsToMembers(links, required, n);
      assert links[i].id.inId in InputsTo(links, required, n);
    }
  }

  lemma LayersOrderedCons(links: seq<LinkGene>, required: set<int>, p: set<int>, next: set<int>, rest: seq<set<int>>)
    requires forall i ::
      (0 <= i < |links| && links[i].id.outId in next &&
       links[i].id.inId in required) ==> links[i].id.inId in p
    requires LayersOrdered(links, required, p + next, rest)
    ensures LayersOrdered(links, required, p, [next] + rest)
  {
    var layers := [next] + rest;
    forall k, i | 0 <= k < |layers| && 0 <= i < |links| &&
        links[i].id.outId in layers[k] && links[i].id.inId in required
      ensures AvailableBefore(layers, p, k, links[i].id.inId)
    {
      var m := links[i].id.inId;
      if k > 0 {
        assert rest[k - 1] == layers[k];
        assert AvailableBefore(rest, p + next, k - 1, m);
        if m !in p {
          if m in next {
            assert m in layers[0];
          } else {
            var j :| 0 <= j < k - 1 && j < |rest| && m in rest[j];
            assert m in layers[j + 1];
          }
        }
      }
    }
  }

  lemma {:induction false} LayersFromOrdered(links: seq<LinkGene>, required: set<int>, p: set<int>)
    ensures LayersOrdered(links, required, p, LayersFrom(links, required, p))
    decreases |OutIds(links) - p|
  {
    var next := NextLayer(links, required, p);
    if next != {} {
      NextLayerFacts(links, required, p);
      DifferenceShrinks(OutIds(links), p, next);
      LayersFromOrdered(links, required, p + next);
      LayersFromUnfold(links, required, p);
      NextLayerFed(links, required, p);
      LayersOrderedCons(links, required, p, next, LayersFrom(links, required, p + next));
    }
  }

  /**
   * What `feed_forward_layers` promises: non-empty layers, pairwise disjoint,
   * disjoint from the inputs, holding only required neurons, and in
   * topological order: every required source of a link into layer k is an
   * input or lies in a layer before k.
   */
  lemma LayeringWellFormed(inputs: seq<int>, outputs: seq<int>, links: seq<LinkGene>)
    ensures LayersWellFormed(links, Required(inputs, outputs, links), Elems(inputs), Layering(inputs, outputs, links))
  {
    LayersFromFresh(links, Required(inputs, outputs, links), Elems(inputs));
    LayersFromDisjoint(links, Required(inputs, outputs, links), Elems(inputs));
    LayersFromOrdered(links, Required(inputs, outputs, links), Elems(inputs));
  }

  /** One pass of the inner loop: keep, in hash-set order, the candidates whose required inputs are all available. */
  method SelectReady(links: seq<LinkGene>, required: set<int>, p: set<int>) returns (next: seq<int>)
    ensures LayerMatches(next, NextLayer(links, required, p))
  {
    var c := Candidates(links, p);
    var rest := c;
    next := [];
    while rest != {}
      invariant rest <= c
      invariant forall x :: x in next <==> x in c && x !in rest && Ready(links, required, p, x)
      invariant Distinct(next)
      decreases |rest|
    {
      var n :| n in rest;
      rest := rest - {n};
      var inputsToN := InputsTo(links, required, n);
      if n in required && forall x :: x in inputsToN ==> x in p {
        next := next + [n];
      }
    }
    forall x
      ensures x in Elems(next) <==> x in NextLayer(links, required, p)
    {
    }
  }

  /**
   * When every link runs from an input straight to an output and every
   * output has a link into it, the outputs are required and form the only
   * layer: the shape `Genome::new` builds.
   */
  lemma DirectLayering(inputs: seq<int>, outputs: seq<int>, links: seq<LinkGene>)
    requires forall k :: 0 <= k < |links| ==> links[k].id.inId in inputs && links[k].id.outId in outputs
    requires forall x :: x in inputs ==> x !in outputs
    requires forall o :: o in outputs ==> exists k :: 0 <= k < |links| && links[k].id.outId == o
    requires |outputs| > 0
    ensures Required(inputs, outputs, links) == Elems(outputs)
    ensures Layering(inputs, outputs, links) == [Elems(outputs)]
  {
    var outs, ins := Elems(outputs), Elems(inputs);
    assert (set x | x in Feeding(links, outs) && x !in inputs) == {};
    var required := Required(inputs, outputs, links);
    assert required == outs;
    forall o | o in outs
      ensures o in NextLayer(links, required, ins)
    {
      var k :| 0 <= k < |links| && links[k].id.outId == o;
      assert o in Candidates(links, ins);
      InputsToMembers(links, required, o);
    }
    assert NextLayer(links, required, ins) == outs;
    assert outputs[0] in outs;
    LayersFromUnfold(links, required, ins);
    assert Candidates(links, ins + outs) == {};
    LayersFromEmpty(links, required, ins + outs);
  }

  /** A computed layer: the neurons of `layer`, each once. */
  predicate LayerMatches(layer: seq<int>, spec: set<int>) {
    Elems(layer) == spec && Distinct(layer)
  }

  /** Layer by layer, the computed layers hold the specified sets. */
  ghost predicate LayersMatch(layers: seq<seq<int>>, spec: seq<set<int>>) {
    |layers| == |spec| && forall k :: 0 <= k < |layers| ==> LayerMatches(layers[k], spec[k])
  }

  lemma LayersMatchSnoc(layers: seq<seq<int>>, spec: seq<set<int>>, layer: seq<int>, s: set<int>)
    requires LayersMatch(layers, spec) && LayerMatches(layer, s)
    ensures LayersMatch(layers + [layer], spec + [s])
  {
    var l', s' := layers + [layer], spec + [s];
    forall k | 0 <= k < |l'|
      ensures LayerMatches(l'[k], s'[k])
    {
      if k < |layers| {
        assert l'[k] == layers[k] && s'[k] == spec[k];
      }
    }
  }

  /** One more layer: the computed prefix grows by the next layer and fewer neurons remain. */
  lemma LayersAdvance(links: seq<LinkGene>, required: set<int>, p: set<int>, done: seq<set<int>>)
    requires NextLayer(links, required, p) != {}
    ensures var next := NextLayer(links, required, p);
      && done + LayersFrom(links, required, p) == (done + [next]) + LayersFrom(links, required, p + next)
      && |OutIds(links) - (p + next)| < |OutIds(links) - p|
  {
    var next := NextLayer(links, required, p);
    NextLayerFacts(links, required, p);
    DifferenceShrinks(OutIds(links), p, next);
    LayersFromUnfold(links, required, p);
  }

  /**
   * The state of the outer loop: the layers computed so far match `done`,
   * `done` followed by the layers still to come from `p` is the whole
   * layering, and `layer` is the next layer.
   */
  ghost predicate LayeringSoFar(links: seq<LinkGene>, required: set<int>, p: set<int>, goal: seq<set<int>>,
                                done: seq<set<int>>, layers: seq<seq<int>>, layer: seq<int>) {
    && done + LayersFrom(links, required, p) == goal
    && LayersMatch(layers, done)
    && LayerMatches(layer, NextLayer(links, required, p))
  }

  /** Before the outer loop nothing is computed and the whole layering lies ahead. */
  lemma LayerStart(inputs: seq<int>, outputs: seq<int>, links: seq<LinkGene>, required: set<int>, layer: seq<int>)
    requires required == Required(inputs, outputs, links)
    requires LayerMatches(layer, NextLayer(links, required, Elems(inputs)))
    ensures LayeringSoFar(links, required, Elems(inputs), Layering(inputs, outputs, links), [], [], layer)
  {
    assert [] + LayersFrom(links, required, Elems(inputs)) == Layering(inputs, outputs, links);
  }

  /** One pass of the outer loop that found a non-empty layer keeps the loop's invariant. */
  lemma LayerStep(links: seq<LinkGene>, required: set<int>, p: set<int>, goal: seq<set<int>>,
                  done: seq<set<int>>, layers: seq<seq<int>>, layer: seq<int>, layer': seq<int>)
    requires LayeringSoFar(links, required, p, goal, done, layers, layer) && |layer| > 0
    requires LayerMatches(layer', NextLayer(links, required, p + Elems(layer)))
    ensures LayeringSoFar(links, required, p + Elems(layer), goal,
                          done + [NextLayer(links, required, p)], layers + [layer], layer')
    ensures |OutIds(links) - (p + Elems(layer))| < |OutIds(links) - p|
  {
    var next := NextLayer(links, required, p);
    assert layer[0] in next;
    LayersAdvance(links, required, p, done);
    LayersMatchSnoc(layers, done, layer, next);
  }

  /** The outer loop stops when no neuron is ready: the computed layers are all there is. */
  lemma LayerStop(links: seq<LinkGene>, required: set<int>, p: set<int>, goal: seq<set<int>>,
                  done: seq<set<int>>, layers: seq<seq<int>>, layer: seq<int>)
    requires LayeringSoFar(links, required, p, goal, done, layers, layer) && |layer| == 0
    ensures LayersMatch(layers, goal)
  {
    assert NextLayer(links, required, p) == {};
    LayersFromEmpty(links, required, p);
    assert done + [] == done;
  }

  /** `feed_forward_layers`: add ready neurons layer by layer until no neuron is ready. */
  method FeedForwardLayers(inputs: seq<int>, outputs: seq<int>, links: seq<LinkGene>) returns (layers: seq<seq<int>>)
    ensures LayersMatch(layers, Layering(inputs, outputs, links))
  {
    layers := [];
    var required := RequiredForOutput(inputs, outputs, links);
    var potentialInput := Elems(inputs);
    ghost var goal := Layering(inputs, outputs, links);
    ghost var done: seq<set<int>> := [];
    var nextLayer := SelectReady(links, required, potentialInput);
    LayerStart(inputs, outputs, links, required, nextLayer);
    while |nextLayer| > 0
      invariant LayeringSoFar(links, required, potentialInput, goal, done, layers, nextLayer)
      decreases |OutIds(links) - potentialInput|
    {
      var p := potentialInput + Elems(nextLayer);
      var layer' := SelectReady(links, required, p);
      LayerStep(links, required, potentialInput, goal, done, layers, nextLayer, layer');
      layers := layers + [nextLayer];
      done := done + [NextLayer(links, required, potentialInput)];
      potentialInput := p;
      nextLayer := layer';
    }
    LayerStop(links, required, potentialInput, goal, done, layers, nextLayer);
  }
}
