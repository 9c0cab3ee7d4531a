/**
 * The structural mutations: adding a link, removing a link, splitting a link
 * with a new neuron and removing a hidden neuron, and the operator that picks
 * one of the four.
 *
 * Random choices are parameters. A uniform choice from a list is a natural
 * number reduced modulo the list's length; a rejection loop that draws until
 * it finds an acceptable neuron receives the whole stream of its draws; a
 * uniform float in [0, 1) is a real `u`. A mutation either applies
 * (`Some(())`), declines (`None`), panics, or is still drawing when the
 * supplied draws run out.
 */
module Mutation {
  import opened Values
  import opened Genes
  import opened LinkGraph

  datatype Outcome = Applied | Skipped | Panicked | Unfinished

  /** A genome after a mutation, and what the mutation did. */
  datatype Mutated = Mutated(genome: Genome, outcome: Outcome)

  /** A draw `u` from [0, 1) stretched to a weight or bias in [-1000, 1000). */
  function Spread(u: real): (r: real)
    ensures 0.0 <= u < 1.0 ==> -1000.0 <= r < 1000.0
    ensures u == 0.5 ==> r == 0.0
  {
    (u * 2.0 - 1.0) * 1000.0
  }

  // ---------------------------------------------------------------------
  // Choosing a neuron by rejection

  /** Which neurons a rejection loop accepts: it redraws on every other one. */
  datatype Filter = InputOrHidden | OutputOrHidden | Hidden

  predicate Admits(f: Filter, numOutputs: int, id: int) {
    match f
    case InputOrHidden => !(id < numOutputs && id >= 0)
    case OutputOrHidden => !(id < 0)
    case Hidden => !(id < numOutputs)
  }

  /**
   * The end of a rejection loop: the id it returns, the panic of
   * `choose(..).unwrap()` on an empty neuron list, or no result yet.
   */
  datatype Choice = Chosen(id: int) | NoNeurons | Exhausted

  /** The first draw of `draws` that lands on an admitted neuron decides the choice. */
  function FirstAdmitted(neurons: seq<NeuronGene>, f: Filter, numOutputs: int, draws: seq<nat>): (c: Choice)
    ensures c.NoNeurons? <==> |neurons| == 0
    ensures c.Chosen? ==> (Admits(f, numOutputs, c.id) &&
      exists k :: 0 <= k < |neurons| && neurons[k].id == c.id)
    decreases |draws|
  {
    if |neurons| == 0 then NoNeurons
    else if |draws| == 0 then Exhausted
    else
      var chosen := neurons[draws[0] % |neurons|];
      if Admits(f, numOutputs, chosen.id) then Chosen(chosen.id)
      else FirstAdmitted(neurons, f, numOutputs, draws[1..])
  }

  /** Every admitted neuron can be the one chosen. */
  lemma AnyAdmittedCanBeChosen(neurons: seq<NeuronGene>, f: Filter, numOutputs: int, k: nat)
    requires k < |neurons| && Admits(f, numOutputs, neurons[k].id)
    ensures FirstAdmitted(neurons, f, numOutputs, [k]) == Chosen(neurons[k].id)
  {
    assert k % |neurons| == k;
  }

  /** When no neuron is admitted the loop never returns, however many draws it makes. */
  lemma {:induction false} NothingAdmittedNeverReturns(neurons: seq<NeuronGene>, f: Filter, numOutputs: int, draws: seq<nat>)
    requires |neurons| > 0
    requires forall k :: 0 <= k < |neurons| ==> !Admits(f, numOutputs, neurons[k].id)
    ensures FirstAdmitted(neurons, f, numOutputs, draws) == Exhausted
    decreases |draws|
  {
    if |draws| > 0 {
      NothingAdmittedNeverReturns(neurons, f, numOutputs, draws[1..]);
    }
  }

  /**
   * `choose_random_input_or_hidden`, `choose_random_output_or_hidden` and
   * `choose_random_hidden`: draw a neuron, redraw while it is rejected.
   */
  method ChooseNeuron(g: Genome, f: Filter, draws: seq<nat>) returns (c: Choice)
    ensures c == FirstAdmitted(g.neurons, f, g.numOutputs, draws)
  {
    var i := 0;
    while true
      invariant 0 <= i <= |draws|
      invariant FirstAdmitted(g.neurons, f, g.numOutputs, draws) ==
                FirstAdmitted(g.neurons, f, g.numOutputs, draws[i..])
      decreases |draws| - i
    {
      if |g.neurons| == 0 {
        return NoNeurons;
      }
      if i == |draws| {
        return Exhausted;
      }
      var chosen := g.neurons[draws[i] % |g.neurons|];
      if Admits(f, g.numOutputs, chosen.id) {
        return Chosen(chosen.id);
      }
      assert draws[i..][1..] == draws[i + 1..];
      i := i + 1;
    }
  }

  // ---------------------------------------------------------------------
  // The cycle test

  /** The targets of the links leaving `curr`, in link order. */
  function Successors(links: seq<LinkGene>, curr: int): (r: seq<int>)
    ensures forall x :: x in r ==> LinkId(curr, x) in Edges(links)
    ensures forall k :: 0 <= k < |links| && links[k].id.inId == curr ==> links[k].id.outId in r
  {
    if |links| == 0 then []
    else
      var last := links[|links| - 1];
      var init := links[..|links| - 1];
      assert forall k :: 0 <= k < |init| ==> Edges(init)[k] == Edges(links)[k];
      assert Edges(links)[|links| - 1] == last.id;
      Successors(init, curr) + (if last.id.inId == curr then [last.id.outId] else [])
  }

  /** The inner loop of `would_create_cycle`: push the target of every link leaving `curr`. */
  method PushSuccessors(links: seq<LinkGene>, curr: int, stack: seq<int>) returns (s: seq<int>)
    ensures s == stack + Successors(links, curr)
  {
    s := stack;
    for k := 0 to |links|
      invariant s == stack + Successors(links[..k], curr)
    {
      assert links[..k + 1][..k] == links[..k];
      if links[k].id.inId == curr {
        s := s + [links[k].id.outId];
      }
    }
    assert links[..|links|] == links;
  }

  /** The nodes a search from `root` can put on its stack. */
  ghost function SearchNodes(links: seq<LinkGene>, root: int): set<int> {
    {root} + set k | 0 <= k < |links| :: links[k].id.outId
  }

  lemma SuccessorsAreSearchNodes(links: seq<LinkGene>, root: int, curr: int)
    ensures forall x :: x in Successors(links, curr) ==> x in SearchNodes(links, root)
  {
    forall x | x in Successors(links, curr)
      ensures x in SearchNodes(links, root)
    {
      var e := Edges(links);
      var k :| 0 <= k < |e| && e[k] == LinkId(curr, x);
      assert links[k].id.outId == x;
    }
  }

  /**
   * What the depth-first search of `would_create_cycle` keeps true: every
   * node seen is reachable from `root`, `target` was never visited, and
   * each link out of a visited node leads to a visited or stacked node.
   */
  ghost predicate Searching(links: seq<LinkGene>, root: int, target: int, visited: set<int>, stack: seq<int>) {
    && visited <= SearchNodes(links, root)
    && (forall x :: x in stack ==> x in SearchNodes(links, root) && Reachable(Edges(links), root, x))
    && (forall x :: x in visited ==> Reachable(Edges(links), root, x))
    && target !in visited
    && (root in visited || root in stack)
    && (forall k :: 0 <= k < |links| && links[k].id.inId in visited ==>
          links[k].id.outId in visited || links[k].id.outId in stack)
  }

  lemma SearchStart(links: seq<LinkGene>, root: int, target: int)
    ensures Searching(links, root, target, {}, [root])
  {
    ReachRefl(Edges(links), root);
  }

  /** Popping a node already visited changes nothing else. */
  lemma SearchSkip(links: seq<LinkGene>, root: int, target: int, visited: set<int>, rest: seq<int>, curr: int)
    requires Searching(links, root, target, visited, rest + [curr]) && curr in visited
    ensures Searching(links, root, target, visited, rest)
  {
    forall x | x in rest
      ensures x in rest + [curr]
    {
    }
  }

  /** Visiting a new node other than the target and pushing its successors. */
  lemma SearchVisit(links: seq<LinkGene>, root: int, target: int, visited: set<int>, rest: seq<int>, curr: int)
    requires Searching(links, root, target, visited, rest + [curr]) && curr !in visited && curr != target
    ensures Searching(links, root, target, visited + {curr}, rest + Successors(links, curr))
    ensures |SearchNodes(links, root) - (visited + {curr})| < |SearchNodes(links, root) - visited|
  {
    var e, nodes := Edges(links), SearchNodes(links, root);
    var stack, succ := rest + [curr], Successors(links, curr);
    assert curr in stack;
    assert nodes - visited == (nodes - (visited + {curr})) + {curr};
    SuccessorsAreSearchNodes(links, root, curr);
    forall x | x in succ
      ensures Reachable(e, root, x)
    {
      ReachEdge(e, curr, x);
      ReachTrans(e, root, curr, x);
    }
    forall x | x in rest + succ
      ensures x in nodes && Reachable(e, root, x)
    {
      if x in rest {
        assert x in stack;
      }
    }
    forall k | 0 <= k < |links| && links[k].id.inId in visited + {curr}
      ensures links[k].id.outId in visited + {curr} || links[k].id.outId in rest + succ
    {
      var y := links[k].id.outId;
      if links[k].id.inId in visited && y !in visited && y !in rest {
        assert y in stack;
      }
    }
  }

  /** A search that empties its stack has seen everything reachable, and not the target. */
  lemma SearchStop(links: seq<LinkGene>, root: int, target: int, visited: set<int>)
    requires Searching(links, root, target, visited, [])
    ensures !Reachable(Edges(links), root, target)
  {
    var e := Edges(links);
    forall k | 0 <= k < |e| && e[k].inId in visited
      ensures e[k].outId in visited
    {
      assert e[k] == links[k].id;
    }
    ClosedBlocks(e, visited, root, target);
  }

  /**
   * `would_create_cycle`: a depth-first search from `outId` over every link
   * (enabled or not) looking for `inId`. It answers exactly whether the
   * link inId->outId would close a cycle.
   */
  method WouldCreateCycle(links: seq<LinkGene>, inId: int, outId: int) returns (cycle: bool)
    ensures cycle <==> inId == outId || Reachable(Edges(links), outId, inId)
  {
    if inId == outId {
      return true;
    }
    var visited: set<int> := {};
    var stack := [outId];
    SearchStart(links, outId, inId);
    while |stack| > 0
      invariant Searching(links, outId, inId, visited, stack)
      decreases |SearchNodes(links, outId) - visited|, |stack|
    {
      var curr := stack[|stack| - 1];
      var rest := stack[..|stack| - 1];
      assert stack == rest + [curr];
      if curr in visited {
        SearchSkip(links, outId, inId, visited, rest, curr);
        stack := rest;
        continue;
      }
      if curr == inId {
        assert curr in stack;
        return true;
      }
      SearchVisit(links, outId, inId, visited, rest, curr);
      visited := visited + {curr};
      stack := PushSuccessors(links, curr, rest);
    }
    SearchStop(links, outId, inId, visited);
    return false;
  }

  // ---------------------------------------------------------------------
  // The four structural mutations

  lemma EnableKeepsEdges(links: seq<LinkGene>, k: nat)
    requires k < |links|
    ensures Edges(links[k := links[k].(isEnabled := true)]) == Edges(links)
  {
  }

  /**
   * `mutate_add_link`: a source that is not an output, a target that is not
   * an input; an existing link between them is re-enabled and nothing else
   * happens, a link closing a cycle is declined, any other link is appended.
   */
  ghost function AddLinkSpec(g: Genome, sourceDraws: seq<nat>, targetDraws: seq<nat>, u: real): (m: Mutated)
    ensures m.genome.id == g.id && m.genome.numInputs == g.numInputs && m.genome.numOutputs == g.numOutputs
    ensures m.genome.neurons == g.neurons
    ensures m.outcome != Applied ==> Edges(m.genome.links) == Edges(g.links)
    ensures m.outcome == Applied ==>
      && |m.genome.links| == |g.links| + 1
      && m.genome.links[..|g.links|] == g.links
      && var l := m.genome.links[|g.links|];
         && l.isEnabled
         && g.FindLink(l.id).None?
         && l.id.inId != l.id.outId
         && !Reachable(Edges(g.links), l.id.outId, l.id.inId)
         && (0.0 <= u < 1.0 ==> -1000.0 <= l.weight < 1000.0)
    ensures m.outcome == Panicked <==> |g.neurons| == 0
    ensures var src := FirstAdmitted(g.neurons, InputOrHidden, g.numOutputs, sourceDraws);
            var dst := FirstAdmitted(g.neurons, OutputOrHidden, g.numOutputs, targetDraws);
      && (m.outcome == Unfinished <==> |g.neurons| > 0 && (src.Exhausted? || dst.Exhausted?))
      && (!(src.Chosen? && dst.Chosen?) ==> m.genome == g)
      && (src.Chosen? && dst.Chosen? ==>
            var lid := LinkId(src.id, dst.id);
            match g.FindLinkMut(lid)
            case Some(k) => m == Mutated(g.(links := g.links[k := g.links[k].(isEnabled := true)]), Skipped)
            case None =>
              if src.id == dst.id || Reachable(Edges(g.links), dst.id, src.id) then m == Mutated(g, Skipped)
              else m == Mutated(g.(links := g.links + [LinkGene(lid, Spread(u), true)]), Applied))
  {
    match FirstAdmitted(g.neurons, InputOrHidden, g.numOutputs, sourceDraws)
    case NoNeurons => Mutated(g, Panicked)
    case Exhausted => Mutated(g, Unfinished)
    case Chosen(a) =>
      match FirstAdmitted(g.neurons, OutputOrHidden, g.numOutputs, targetDraws)
      case NoNeurons => Mutated(g, Panicked)
      case Exhausted => Mutated(g, Unfinished)
      case Chosen(b) =>
        var lid := LinkId(a, b);
        match g.FindLinkMut(lid)
        case Some(k) =>
          EnableKeepsEdges(g.links, k);
          Mutated(g.(links := g.links[k := g.links[k].(isEnabled := true)]), Skipped)
        case None =>
          if a == b || Reachable(Edges(g.links), b, a) then Mutated(g, Skipped)
          else Mutated(g.(links := g.links + [LinkGene(lid, Spread(u), true)]), Applied)
  }

  method MutateAddLink(g: Genome, sourceDraws: seq<nat>, targetDraws: seq<nat>, u: real) returns (m: Mutated)
    ensures m == AddLinkSpec(g, sourceDraws, targetDraws, u)
  {
    var source := ChooseNeuron(g, InputOrHidden, sourceDraws);
    if source.NoNeurons? {
      return Mutated(g, Panicked);
    } else if source.Exhausted? {
      return Mutated(g, Unfinished);
    }
    var target := ChooseNeuron(g, OutputOrHidden, targetDraws);
    if target.NoNeurons? {
      return Mutated(g, Panicked);
    } else if target.Exhausted? {
      return Mutated(g, Unfinished);
    }
    var lid := LinkId(source.id, target.id);
    var existing := g.FindLinkMut(lid);
    if existing.Some? {
      var k := existing.value;
      return Mutated(g.(links := g.links[k := g.links[k].(isEnabled := true)]), Skipped);
    }
    var cycle := WouldCreateCycle(g.links, source.id, target.id);
    if cycle {
      return Mutated(g, Skipped);
    }
    m := Mutated(g.(links := g.links + [LinkGene(lid, Spread(u), true)]), Applied);
  }

  /**
   * `random_range(lo..=hi)` driven by a draw: a value of the inclusive
   * range, and every value of it for some draw.
   */
  function InclusiveRange(lo: int, hi: int, draw: nat): (k: int)
    requires lo <= hi
    ensures lo <= k <= hi
    ensures draw <= hi - lo ==> k == lo + draw
  {
    lo + draw % (hi - lo + 1)
  }

  /**
   * `mutate_remove_link`: the position is drawn from the inclusive range
   * `num_outputs ..= links.len()`. An empty range panics, and so does the
   * position `links.len()` (and a negative one, cast to a huge index).
   */
  function RemoveLink(g: Genome, draw: nat): (m: Mutated)
    ensures m.genome.id == g.id && m.genome.numInputs == g.numInputs && m.genome.numOutputs == g.numOutputs
    ensures m.genome.neurons == g.neurons
    ensures m.outcome == Skipped <==> |g.links| == 0
    ensures m.outcome != Applied ==> m.genome == g
    ensures m.outcome == Panicked <==>
      |g.links| > 0 &&
      (g.numOutputs > |g.links| ||
       var k := InclusiveRange(g.numOutputs, |g.links|, draw); k < 0 || k >= |g.links|)
    ensures m.outcome == Applied ==>
      g.numOutputs <= |g.links| &&
      var k := InclusiveRange(g.numOutputs, |g.links|, draw);
      0 <= k < |g.links| && m.genome.links == g.links[..k] + g.links[k + 1..]
    ensures m.outcome.Unfinished? == false
  {
    if |g.links| == 0 then Mutated(g, Skipped)
    else if g.numOutputs > |g.links| then Mutated(g, Panicked)
    else
      var k := InclusiveRange(g.numOutputs, |g.links|, draw);
      if k < 0 || k >= |g.links| then Mutated(g, Panicked)
      else Mutated(g.(links := g.links[..k] + g.links[k + 1..]), Applied)
  }

  /** Each link at a position from `num_outputs` on can be the one removed. */
  lemma RemoveLinkReachesEveryPosition(g: Genome, k: int)
    requires 0 <= g.numOutputs <= k < |g.links|
    ensures RemoveLink(g, k - g.numOutputs) == Mutated(g.(links := g.links[..k] + g.links[k + 1..]), Applied)
  {
  }

  /** The inclusive upper bound of the range is one past the last link, and drawing it panics. */
  lemma RemoveLinkCanPanic(g: Genome)
    requires 0 <= g.numOutputs <= |g.links| && |g.links| > 0
    ensures RemoveLink(g, |g.links| - g.numOutputs).outcome == Panicked
  {
  }

  /**
   * With one input, `Genome::new` makes exactly `num_outputs` links, so the
   * range `num_outputs ..= links.len()` holds only `links.len()`: removing a
   * link from such a fresh genome panics on every draw.
   */
  lemma RemoveLinkPanicsOnSingleInputGenome(id: int, no: nat, lo: real, hi: real, d: GenomeDraws, draw: nat)
    requires Sized(d, 1, no) && no > 0
    ensures RemoveLink(FreshGenome(id, 1, no, lo, hi, d), draw).outcome == Panicked
  {
    FullLinksLength(1, no, d.weight, lo, hi);
  }

  /** Once removals leave fewer links than `num_outputs`, the range is empty and every draw panics. */
  lemma RemoveLinkEmptyRangePanics(g: Genome, draw: nat)
    requires 0 < |g.links| < g.numOutputs
    ensures RemoveLink(g, draw) == Mutated(g, Panicked)
  {
  }

  /**
   * `mutate_add_neuron`: a link drawn from all links is re-enabled, a neuron
   * with id `neurons.len()` and a drawn bias is appended, and two links
   * through it are appended: from the link's source with weight 1, and to
   * the link's target with the link's weight.
   */
  function AddNeuron(g: Genome, draw: nat, u: real): (m: Mutated)
    ensures m.genome.id == g.id && m.genome.numInputs == g.numInputs && m.genome.numOutputs == g.numOutputs
    ensures m.outcome == Applied <==> |g.links| > 0
    ensures m.outcome == Skipped <==> |g.links| == 0
    ensures m.outcome != Applied ==> m.genome == g
    ensures m.outcome == Applied ==>
      && m.genome.neurons == g.neurons + [NeuronGene(|g.neurons|, Spread(u))]
      && |m.genome.links| == |g.links| + 2
      && Edges(m.genome.links[..|g.links|]) == Edges(g.links)
      && exists k :: 0 <= k < |g.links| &&
           k == draw % |g.links|
           && m.genome.links[..|g.links|] == g.links[k := g.links[k].(isEnabled := true)]
           && m.genome.links[k].isEnabled
           && m.genome.links[|g.links|] == LinkGene(LinkId(g.links[k].id.inId, |g.neurons|), 1.0, true)
           && m.genome.links[|g.links| + 1] == LinkGene(LinkId(|g.neurons|, g.links[k].id.outId), g.links[k].weight, true)
  {
    if |g.links| == 0 then Mutated(g, Skipped)
    else
      var k := draw % |g.links|;
      var split := g.links[k];
      var n := |g.neurons|;
      EnableKeepsEdges(g.links, k);
      Mutated(g.(neurons := g.neurons + [NeuronGene(n, Spread(u))],
                 links := g.links[k := split.(isEnabled := true)] +
                          [LinkGene(LinkId(split.id.inId, n), 1.0, true),
                           LinkGene(LinkId(n, split.id.outId), split.weight, true)]),
              Applied)
  }

  /**
   * The links of `links` that neither start nor end at `id`, in order:
   * `links.retain(..)` of `mutate_remove_neuron`.
   */
  function Detach(links: seq<LinkGene>, id: int): (r: seq<LinkGene>)
    ensures forall l {:trigger l in r} :: l in r <==> l in links && l.id.inId != id && l.id.outId != id
    ensures |r| <= |links|
    ensures (forall k :: 0 <= k < |links| ==> links[k].id.inId != id && links[k].id.outId != id) ==> r == links
  {
    if |links| == 0 then []
    else
      var last := links[|links| - 1];
      assert links == links[..|links| - 1] + [last];
      Detach(links[..|links| - 1], id) +
        (if last.id.inId != id && last.id.outId != id then [last] else [])
  }

  /** One more link at the end: it survives exactly when it does not touch `id`. */
  lemma DetachSnoc(s: seq<LinkGene>, l: LinkGene, id: int)
    ensures Detach(s + [l], id) == Detach(s, id) + (if l.id.inId != id && l.id.outId != id then [l] else [])
  {
    assert (s + [l])[..|s|] == s;
  }

  /** `retain` distributes over concatenation: the surviving links keep their order. */
  lemma {:induction false} DetachAppend(a: seq<LinkGene>, b: seq<LinkGene>, id: int)
    ensures Detach(a + b, id) == Detach(a, id) + Detach(b, id)
    decreases |b|
  {
    if |b| > 0 {
      var init, last := b[..|b| - 1], b[|b| - 1];
      var kept := if last.id.inId != id && last.id.outId != id then [last] else [];
      calc {
        Detach(a + b, id);
        { assert a + b == (a + init) + [last]; }
        Detach((a + init) + [last], id);
        { DetachSnoc(a + init, last, id); }
        Detach(a + init, id) + kept;
        { DetachAppend(a, init, id); }
        Detach(a, id) + Detach(init, id) + kept;
        { DetachSnoc(init, last, id); }
        Detach(a, id) + Detach(init + [last], id);
        { assert b == init + [last]; }
        Detach(a, id) + Detach(b, id);
      }
    } else {
      assert a + b == a;
    }
  }

  /** A single link survives exactly when it does not touch `id`. */
  lemma DetachSingle(l: LinkGene, id: int)
    ensures Detach([l], id) == if l.id.inId != id && l.id.outId != id then [l] else []
  {
    assert [l][..0] == [];
  }

  lemma {:induction false} DetachKeepsUnique(links: seq<LinkGene>, id: int)
    requires UniqueLinkIds(links)
    ensures UniqueLinkIds(Detach(links, id))
    decreases |links|
  {
    if |links| > 0 {
      var init := links[..|links| - 1];
      var last := links[|links| - 1];
      DetachKeepsUnique(init, id);
      var d := Detach(init, id);
      forall j | 0 <= j < |d|
        ensures d[j].id != last.id
      {
        assert d[j] in d;
        var i :| 0 <= i < |init| && init[i] == d[j];
        assert links[i] == d[j];
      }
    }
  }

  /**
   * `mutate_remove_neuron`: a hidden neuron's id is drawn, every link that
   * touches it is dropped, and then the neuron at the POSITION equal to that
   * id is removed, which panics when the id is not a valid position.
   */
  function RemoveNeuronSpec(g: Genome, hiddenDraws: seq<nat>): (m: Mutated)
    ensures m.genome.id == g.id && m.genome.numInputs == g.numInputs && m.genome.numOutputs == g.numOutputs
    ensures m.outcome == Skipped <==> |g.links| == 0
    ensures m.outcome == Skipped ==> m.genome == g
    ensures m.outcome == Applied ==>
      && FirstAdmitted(g.neurons, Hidden, g.numOutputs, hiddenDraws).Chosen?
      && var id := FirstAdmitted(g.neurons, Hidden, g.numOutputs, hiddenDraws).id;
         && 0 <= id < |g.neurons|
         && m.genome.neurons == g.neurons[..id] + g.neurons[id + 1..]
         && m.genome.links == Detach(g.links, id)
    ensures var c := FirstAdmitted(g.neurons, Hidden, g.numOutputs, hiddenDraws);
      && (m.outcome == Applied <==> |g.links| > 0 && c.Chosen? && 0 <= c.id < |g.neurons|)
      && (m.outcome == Panicked <==> |g.links| > 0 && (c.NoNeurons? || (c.Chosen? && !(0 <= c.id < |g.neurons|))))
      && (m.outcome == Unfinished <==> |g.links| > 0 && c.Exhausted?)
  {
    if |g.links| == 0 then Mutated(g, Skipped)
    else
      match FirstAdmitted(g.neurons, Hidden, g.numOutputs, hiddenDraws)
      case NoNeurons => Mutated(g, Panicked)
      case Exhausted => Mutated(g, Unfinished)
      case Chosen(id) =>
        var links := Detach(g.links, id);
        if id < 0 || id >= |g.neurons| then Mutated(g.(links := links), Panicked)
        else Mutated(g.(neurons := g.neurons[..id] + g.neurons[id + 1..], links := links), Applied)
  }

  method MutateRemoveNeuron(g: Genome, hiddenDraws: seq<nat>) returns (m: Mutated)
    ensures m == RemoveNeuronSpec(g, hiddenDraws)
  {
    if |g.links| == 0 {
      return Mutated(g, Skipped);
    }
    var chosen := ChooseNeuron(g, Hidden, hiddenDraws);
    if chosen.NoNeurons? {
      return Mutated(g, Panicked);
    } else if chosen.Exhausted? {
      return Mutated(g, Unfinished);
    }
    var id := chosen.id;
    var links := Detach(g.links, id);
    if id < 0 || id >= |g.neurons| {
      return Mutated(g.(links := links), Panicked);
    }
    m := Mutated(g.(neurons := g.neurons[..id] + g.neurons[id + 1..], links := links), Applied);
  }

  /**
   * A genome fresh from `Genome::new` has no hidden neuron, so removing a
   * neuron from it never returns once it has a link.
   */
  lemma RemoveNeuronNeverReturnsOnFreshGenome(id: int, ni: nat, no: nat, lo: real, hi: real, d: GenomeDraws, draws: seq<nat>)
    requires Sized(d, ni, no) && ni > 0 && no > 0
    ensures RemoveNeuronSpec(FreshGenome(id, ni, no, lo, hi, d), draws).outcome == Unfinished
  {
    var g := FreshGenome(id, ni, no, lo, hi, d);
    FullLinksLength(ni, no, d.weight, lo, hi);
    MulMonotone(1, ni, no);
    NothingAdmittedNeverReturns(g.neurons, Hidden, g.numOutputs, draws);
  }

  // ---------------------------------------------------------------------
  // Choosing the mutation

  datatype MutationKind = AddLinkKind | AddNeuronKind | RemoveLinkKind | RemoveNeuronKind

  /** The random inputs one call of `mutate` may consume. */
  datatype MutationDraws = MutationDraws(source: seq<nat>, target: seq<nat>, link: nat, hidden: seq<nat>, unit: real)

  /** `mutate`: the operator drawn from the four structural mutations, applied to the genome. */
  ghost function MutateSpec(g: Genome, kind: MutationKind, d: MutationDraws): Mutated {
    match kind
    case AddLinkKind => AddLinkSpec(g, d.source, d.target, d.unit)
    case AddNeuronKind => AddNeuron(g, d.link, d.unit)
    case RemoveLinkKind => RemoveLink(g, d.link)
    case RemoveNeuronKind => RemoveNeuronSpec(g, d.hidden)
  }

  method Mutate(g: Genome, kind: MutationKind, d: MutationDraws) returns (m: Mutated)
    ensures m == MutateSpec(g, kind, d)
  {
    match kind
    case AddLinkKind =>
      m := MutateAddLink(g, d.source, d.target, d.unit);
    case AddNeuronKind =>
      m := AddNeuron(g, d.link, d.unit);
    case RemoveLinkKind =>
      m := RemoveLink(g, d.link);
    case RemoveNeuronKind =>
      m := MutateRemoveNeuron(g, d.hidden);
  }

  /** Every mutation keeps the genome's id and arity. */
  lemma MutateKeepsIdentity(g: Genome, kind: MutationKind, d: MutationDraws)
    ensures var m := MutateSpec(g, kind, d).genome;
      m.id == g.id && m.numInputs == g.numInputs && m.numOutputs == g.numOutputs
  {
  }

  /** The id a new hidden neuron gets, `neurons.len()`, is not yet used by any link. */
  predicate NextNeuronIdFree(g: Genome) {
    forall k :: 0 <= k < |g.links| ==> g.links[k].id.inId != |g.neurons| && g.links[k].id.outId != |g.neurons|
  }

  /** Appending a link that `mutate_add_link` accepted keeps the link graph acyclic. */
  lemma AddLinkKeepsAcyclic(g: Genome, sourceDraws: seq<nat>, targetDraws: seq<nat>, u: real)
    requires Acyclic(Edges(g.links))
    ensures Acyclic(Edges(AddLinkSpec(g, sourceDraws, targetDraws, u).genome.links))
  {
    var m := AddLinkSpec(g, sourceDraws, targetDraws, u);
    if m.outcome == Applied {
      var l := m.genome.links[|g.links|];
      assert m.genome.links == g.links + [l];
      assert Edges(m.genome.links) == Edges(g.links) + [l.id];
      AddEdgeAcyclic(Edges(g.links), l.id.inId, l.id.outId);
    }
  }

  /** Splitting a link through a neuron whose id no link uses yet keeps the link graph acyclic. */
  lemma AddNeuronKeepsAcyclic(g: Genome, draw: nat, u: real)
    requires Acyclic(Edges(g.links)) && NextNeuronIdFree(g)
    ensures Acyclic(Edges(AddNeuron(g, draw, u).genome.links))
  {
    var m := AddNeuron(g, draw, u);
    if m.outcome == Applied {
      var e := Edges(g.links);
      var n := |g.neurons|;
      var k :| 0 <= k < |g.links| &&
        m.genome.links[k].isEnabled &&
        m.genome.links[|g.links|] == LinkGene(LinkId(g.links[k].id.inId, n), 1.0, true) &&
        m.genome.links[|g.links| + 1] == LinkGene(LinkId(n, g.links[k].id.outId), g.links[k].weight, true);
      var e' := Edges(m.genome.links);
      assert e'[..|g.links|] == Edges(m.genome.links[..|g.links|]);
      assert e' == e'[..|g.links|] + [e'[|g.links|], e'[|g.links| + 1]];
      assert e' == e + [LinkId(e[k].inId, n), LinkId(n, e[k].outId)];
      SplitEdgeAcyclic(e, k, n);
    }
  }

  /** Deleting one link keeps the link graph acyclic. */
  lemma RemoveAtKeepsAcyclic(links: seq<LinkGene>, k: int)
    requires Acyclic(Edges(links)) && 0 <= k < |links|
    ensures Acyclic(Edges(links[..k] + links[k + 1..]))
  {
    var e := Edges(links);
    assert Edges(links[..k] + links[k + 1..]) == e[..k] + e[k + 1..];
    RemoveEdgeAcyclic(e, k);
  }

  lemma RemoveLinkKeepsAcyclic(g: Genome, draw: nat)
    requires Acyclic(Edges(g.links))
    ensures Acyclic(Edges(RemoveLink(g, draw).genome.links))
  {
    var m := RemoveLink(g, draw);
    if m.outcome == Applied {
      var k :| g.numOutputs <= k < |g.links| && 0 <= k && m.genome.links == g.links[..k] + g.links[k + 1..];
      RemoveAtKeepsAcyclic(g.links, k);
    }
  }

  lemma RemoveNeuronKeepsAcyclic(g: Genome, hiddenDraws: seq<nat>)
    requires Acyclic(Edges(g.links))
    ensures Acyclic(Edges(RemoveNeuronSpec(g, hiddenDraws).genome.links))
  {
    var m := RemoveNeuronSpec(g, hiddenDraws);
    var e, e' := Edges(g.links), Edges(m.genome.links);
    forall x | x in e'
      ensures x in e
    {
      var j :| 0 <= j < |e'| && e'[j] == x;
      assert m.genome.links[j] in m.genome.links;
      var i :| 0 <= i < |g.links| && g.links[i] == m.genome.links[j];
      assert e[i] == x;
    }
    AcyclicSubgraph(e', e);
  }

  /**
   * The feed-forward invariant: every mutation leaves an acyclic link graph
   * acyclic, provided a new neuron's id is not yet used by a link.
   */
  lemma MutateKeepsAcyclic(g: Genome, kind: MutationKind, d: MutationDraws)
    requires Acyclic(Edges(g.links))
    requires kind == AddNeuronKind ==> NextNeuronIdFree(g)
    ensures Acyclic(Edges(MutateSpec(g, kind, d).genome.links))
  {
    match kind
    case AddLinkKind => AddLinkKeepsAcyclic(g, d.source, d.target, d.unit);
    case AddNeuronKind => AddNeuronKeepsAcyclic(g, d.link, d.unit);
    case RemoveLinkKind => RemoveLinkKeepsAcyclic(g, d.link);
    case RemoveNeuronKind => RemoveNeuronKeepsAcyclic(g, d.hidden);
  }

  /** No mutation introduces two links with the same id. */
  lemma MutateKeepsUniqueLinks(g: Genome, kind: MutationKind, d: MutationDraws)
    requires UniqueLinkIds(g.links)
    requires kind == AddNeuronKind ==> NextNeuronIdFree(g)
    ensures UniqueLinkIds(MutateSpec(g, kind, d).genome.links)
  {
    match kind
    case AddLinkKind => AddLinkKeepsUnique(g, d.source, d.target, d.unit);
    case AddNeuronKind => AddNeuronKeepsUnique(g, d.link, d.unit);
    case RemoveLinkKind => RemoveLinkKeepsUnique(g, d.link);
    case RemoveNeuronKind =>
      var c := FirstAdmitted(g.neurons, Hidden, g.numOutputs, d.hidden);
      if |g.links| > 0 && c.Chosen? {
        DetachKeepsUnique(g.links, c.id);
      }
  }

  lemma AddLinkKeepsUnique(g: Genome, sourceDraws: seq<nat>, targetDraws: seq<nat>, u: real)
    requires UniqueLinkIds(g.links)
    ensures UniqueLinkIds(AddLinkSpec(g, sourceDraws, targetDraws, u).genome.links)
  {
    var m := AddLinkSpec(g, sourceDraws, targetDraws, u);
    var links := m.genome.links;
    if m.outcome == Applied {
      forall j, k | 0 <= j < k < |links|
        ensures links[j].id != links[k].id
      {
        if k == |g.links| {
          assert links[j] == g.links[j];
        } else {
          assert links[j] == g.links[j] && links[k] == g.links[k];
        }
      }
    } else {
      forall k | 0 <= k < |links|
        ensures links[k].id == g.links[k].id
      {
        assert links[k].id == Edges(links)[k] == Edges(g.links)[k] == g.links[k].id;
      }
    }
  }

  lemma AddNeuronKeepsUnique(g: Genome, draw: nat, u: real)
    requires UniqueLinkIds(g.links) && NextNeuronIdFree(g)
    ensures UniqueLinkIds(AddNeuron(g, draw, u).genome.links)
  {
    var m := AddNeuron(g, draw, u);
    var links := m.genome.links;
    forall j, k | 0 <= j < k < |links|
      ensures links[j].id != links[k].id
    {
      assert Edges(links[..|g.links|]) == Edges(g.links);
      if k < |g.links| {
        assert links[j].id == Edges(g.links)[j] && links[k].id == Edges(g.links)[k];
      } else if j < |g.links| {
        assert links[j].id == g.links[j].id;
      }
    }
  }

  /** Deleting one link keeps the link ids distinct. */
  lemma RemoveAtKeepsUnique(links: seq<LinkGene>, r: int)
    requires UniqueLinkIds(links) && 0 <= r < |links|
    ensures UniqueLinkIds(links[..r] + links[r + 1..])
  {
    var rest := links[..r] + links[r + 1..];
    forall j, k | 0 <= j < k < |rest|
      ensures rest[j].id != rest[k].id
    {
      var j', k' := if j < r then j else j + 1, if k < r then k else k + 1;
      assert rest[j] == links[j'] && rest[k] == links[k'];
    }
  }

  lemma RemoveLinkKeepsUnique(g: Genome, draw: nat)
    requires UniqueLinkIds(g.links)
    ensures UniqueLinkIds(RemoveLink(g, draw).genome.links)
  {
    var m := RemoveLink(g, draw);
    if m.outcome == Applied {
      var r :| g.numOutputs <= r < |g.links| && 0 <= r && m.genome.links == g.links[..r] + g.links[r + 1..];
      RemoveAtKeepsUnique(g.links, r);
    }
  }

  // ---------------------------------------------------------------------
  // Where the invariants stop: a removed neuron frees the next id

  /** The genome `Genome::new(2, 2)` builds, with every bias 0 and every weight 1. */
  function TwoByTwo(): Genome {
    Genome(1, 2, 2,
           [NeuronGene(0, 0.0), NeuronGene(1, 0.0), NeuronGene(-1, 0.0), NeuronGene(-2, 0.0)],
           [LinkGene(LinkId(-1, 0), 1.0, true), LinkGene(LinkId(-1, 1), 1.0, true),
            LinkGene(LinkId(-2, 0), 1.0, true), LinkGene(LinkId(-2, 1), 1.0, true)])
  }

  /** `TwoByTwo` is acyclic and its link ids are unique. */
  lemma TwoByTwoSound()
    ensures Acyclic(Edges(TwoByTwo().links)) && UniqueLinkIds(TwoByTwo().links)
  {
    var e := Edges(TwoByTwo().links);
    forall k | 0 <= k < |e|
      ensures !Reachable(e, e[k].outId, e[k].inId)
    {
      NoOutgoing(e, e[k].outId, e[k].inId);
    }
  }

  /** `TwoByTwo` after splitting link 0, splitting the new link -1 -> 4, and removing neuron 4. */
  function SplitSplitRemoved(): Genome {
    var g0 := TwoByTwo();
    g0.(neurons := g0.neurons + [NeuronGene(5, 0.0)],
        links := g0.links + [LinkGene(LinkId(-1, 5), 1.0, true)])
  }

  /** `TwoByTwo` after splitting link 0 and then the new link -1 -> 4. */
  function SplitTwice(): Genome {
    var g0 := TwoByTwo();
    g0.(neurons := g0.neurons + [NeuronGene(4, 0.0), NeuronGene(5, 0.0)],
        links := g0.links + [LinkGene(LinkId(-1, 4), 1.0, true), LinkGene(LinkId(4, 0), 1.0, true),
                             LinkGene(LinkId(-1, 5), 1.0, true), LinkGene(LinkId(5, 4), 1.0, true)])
  }

  lemma SplitTwiceSteps()
    ensures AddNeuron(AddNeuron(TwoByTwo(), 0, 0.5).genome, 4, 0.5).genome == SplitTwice()
  {
    var g0 := TwoByTwo();
    var g1 := AddNeuron(g0, 0, 0.5).genome;
    assert g1.links == g0.links + [LinkGene(LinkId(-1, 4), 1.0, true), LinkGene(LinkId(4, 0), 1.0, true)];
  }

  /** Of the four links the two splits add, only -1 -> 5 avoids neuron 4. */
  lemma DetachFourNew(a: LinkGene, b: LinkGene, c: LinkGene, d: LinkGene)
    requires a.id == LinkId(-1, 4) && b.id == LinkId(4, 0) && c.id == LinkId(-1, 5) && d.id == LinkId(5, 4)
    ensures Detach([a, b, c, d], 4) == [c]
  {
    assert [a, b, c, d] == [a, b, c] + [d];
    assert [a, b, c] == [a, b] + [c];
    assert [a, b] == [a] + [b];
    DetachSnoc([a, b, c], d, 4);
    DetachSnoc([a, b], c, 4);
    DetachSnoc([a], b, 4);
    DetachSingle(a, 4);
  }

  /** Of the links of `SplitTwice`, only those of `TwoByTwo` and -1 -> 5 avoid neuron 4. */
  lemma DetachFour()
    ensures Detach(SplitTwice().links, 4) == SplitSplitRemoved().links
  {
    var g0 := TwoByTwo();
    var a, b := LinkGene(LinkId(-1, 4), 1.0, true), LinkGene(LinkId(4, 0), 1.0, true);
    var c, d := LinkGene(LinkId(-1, 5), 1.0, true), LinkGene(LinkId(5, 4), 1.0, true);
    assert SplitTwice().links == g0.links + [a, b, c, d];
    assert forall k :: 0 <= k < |g0.links| ==> g0.links[k].id.inId != 4 && g0.links[k].id.outId != 4;
    assert Detach(g0.links, 4) == g0.links;
    DetachAppend(g0.links, [a, b, c, d], 4);
    DetachFourNew(a, b, c, d);
  }

  lemma SplitSplitRemove()
    ensures var g1 := AddNeuron(TwoByTwo(), 0, 0.5).genome;
            var g2 := AddNeuron(g1, 4, 0.5).genome;
            RemoveNeuronSpec(g2, [4]) == Mutated(SplitSplitRemoved(), Applied)
  {
    SplitTwiceSteps();
    RemoveFour();
  }

  lemma RemoveFour()
    ensures RemoveNeuronSpec(SplitTwice(), [4]) == Mutated(SplitSplitRemoved(), Applied)
  {
    SplitTwiceChoosesFour();
    DetachFour();
    SplitTwiceWithoutFour();
    RemoveChosen(SplitTwice(), [4], 4);
  }

  lemma SplitTwiceWithoutFour()
    ensures SplitTwice().neurons[..4] + SplitTwice().neurons[5..] == SplitSplitRemoved().neurons
  {
  }

  lemma SplitTwiceChoosesFour()
    ensures FirstAdmitted(SplitTwice().neurons, Hidden, SplitTwice().numOutputs, [4]) == Chosen(4)
  {
    AnyAdmittedCanBeChosen(SplitTwice().neurons, Hidden, SplitTwice().numOutputs, 4);
  }


  /** Removing a neuron whose id is a valid position, stated as one genome. */
  lemma RemoveChosen(g: Genome, hiddenDraws: seq<nat>, id: int)
    requires |g.links| > 0 && FirstAdmitted(g.neurons, Hidden, g.numOutputs, hiddenDraws) == Chosen(id)
    requires 0 <= id < |g.neurons|
    ensures RemoveNeuronSpec(g, hiddenDraws) ==
      Mutated(g.(neurons := g.neurons[..id] + g.neurons[id + 1..], links := Detach(g.links, id)), Applied)
  {
  }

  /** Splitting the link -1 -> 5 of `SplitSplitRemoved` names the new neuron 5 as well. */
  lemma SplitOntoUsedId()
    ensures !NextNeuronIdFree(SplitSplitRemoved())
    ensures var m := AddNeuron(SplitSplitRemoved(), 4, 0.5);
            m.outcome == Applied && !Acyclic(Edges(m.genome.links)) && !UniqueLinkIds(m.genome.links)
  {
    var g := SplitSplitRemoved();
    assert g.links[4].id.outId == |g.neurons|;
    var m := AddNeuron(g, 4, 0.5);
    var e := Edges(m.genome.links);
    assert m.genome.links[4].id == m.genome.links[5].id == LinkId(-1, 5);
    assert e[6] == LinkId(5, 5);
    ReachRefl(e, 5);
  }

  /**
   * `mutate_add_neuron` names its neuron `neurons.len()`, and
   * `mutate_remove_neuron` shrinks that list, so after a removal the next
   * new neuron can take an id a link still uses. Splitting such a link
   * then adds a self-loop and a second link with an existing id: the
   * sequence split, split, remove, split turns a genome that is acyclic
   * with unique link ids into one that is neither.
   */
  lemma SplitAfterRemoveBreaksInvariants()
    ensures Acyclic(Edges(TwoByTwo().links)) && UniqueLinkIds(TwoByTwo().links)
    ensures var g1 := AddNeuron(TwoByTwo(), 0, 0.5).genome;
            var g2 := AddNeuron(g1, 4, 0.5).genome;
            var r := RemoveNeuronSpec(g2, [4]);
            var m := AddNeuron(r.genome, 4, 0.5);
            && r.outcome == Applied && !NextNeuronIdFree(r.genome)
            && m.outcome == Applied
            && !Acyclic(Edges(m.genome.links)) && !UniqueLinkIds(m.genome.links)
  {
    TwoByTwoSound();
    SplitSplitRemove();
    SplitOntoUsedId();
  }
}
