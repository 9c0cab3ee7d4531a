# NEAT core of breakout-ai-rs, modelled in Dafny

This project models the NEAT (NeuroEvolution of Augmenting Topologies) engine behind the Breakout-playing agent:

- **Genomes** (`src/neat/mod.rs`). A genome has an id, an input and an output arity, neuron genes, and link genes between neuron ids. Inputs are numbered `-1, -2, ...` and outputs `0, 1, ...`. `Genome::new` builds a genome that links every input to every output.
- **Mutations** (`src/neat/mutation.rs`). There are four structural mutations: add a link, remove a link, add a neuron by splitting a link, and remove a hidden neuron. The picks are rejection-sampled neuron choices. The cycle check walks the link graph with a stack.
- **Crossover** (`src/neat/crossover.rs`). It builds an offspring from a dominant and a recessive parent.
- **The feed-forward network** (`src/neat/nn.rs`). It covers the backward closure `required_for_output`, the layering `feed_forward_layers`, the compilation `create_from_genome`, and the evaluation `activate`.
- **The population** (`src/neat/population.rs`). It covers sorting by fitness, `populate`, `reproduce` and the generational `run`.

Genes, genomes, individuals and networks are Dafny datatypes. A `&mut Genome` operation is a function or method from a genome to the updated genome, together with an `Outcome`:

- `Applied` for `Some(())`.
- `Skipped` for `None`.
- `Panicked` for a panic, such as an `unwrap` on an empty choice or an index out of range.
- `Unfinished` for a rejection loop that has not returned within the draws supplied.

The population and the global genome counter are classes whose methods update their fields. Every random choice is a parameter:

- An index is an arbitrary natural number reduced modulo the range the source samples from, so every outcome the source can reach is reachable.
- A rejection loop gets a sequence of such draws.
- A coin flip is a set of positions.
- A normal sample is a real that is clamped as the source clamps it.

Each loop of the source is a method with its invariants, proved equal to a specification function. The properties are stated about those functions:

- Acyclicity is preserved by every mutation and by reproduction, as long as the id a new neuron gets (`neurons.len()`) is not already used by a link. `Mutation.SplitAfterRemoveBreaksInvariants` shows that this condition is needed.
- Link ids stay unique, under the same condition.
- The layering is well formed.
- A network compiled from a genome never hits the missing-input panic, as long as every enabled link starts at a neuron the genome has a gene for. The mutations do not keep this on their own: a removed neuron's outgoing links are dropped with it, but position-based removal can delete a different gene.
- The unit tests of `activate` and `create_from_genome` hold.

Several places where the code behaves differently from what its comments or a reader would expect are modelled as written:

- `make_output_ids` counts up to `num_inputs`, not `num_outputs`.
- `crossover` looks each link up in the dominant parent, so a link's weight and flag never come from the recessive parent.
- `mutate_remove_link` draws from an inclusive range whose top value is one past the last index, so it can panic.
- `mutate_add_neuron` re-enables the link it splits, rather than disabling it.
- `mutate_remove_neuron` removes the neuron at the position equal to the chosen id.
- `mutate_add_neuron` names the new neuron `neurons.len()`. After a removal this id can already be used by a link, and splitting that link then creates a self-loop and a duplicate link id.
- `choose_random_hidden` never returns on a genome without hidden neurons.
- `reproduce` pops the parents from the least fit end of the sorted population.

## Model

| member | source | states |
|---|---|---|
| Values.Clamp | src/neat/mutation.rs:184-187 | The result lies in [min, max] when min <= max. A value already inside is unchanged, one below gives min, one above gives max. With crossed bounds the outer `min` yields max. |
| Values.ClampIdempotent | src/neat/mutation.rs:184-187 | Clamping a clamped value changes nothing. |
| Values.NewValue | src/neat/mutation.rs:173-176 | A fresh value lies within [min, max]. A sample already in range is returned as drawn. |
| Values.MutateDelta | src/neat/mutation.rs:178-182 | A perturbed value lies within [min, max]. It equals value + delta when the delta and the sum are both in range. |
| Genes.Genome.FindNeuron | src/neat/mod.rs:69-71 | None exactly when no neuron gene has the id. Otherwise the result is the first gene with that id. |
| Genes.Genome.FindLink | src/neat/mod.rs:73-75 | None exactly when no link gene has the id. Otherwise the result is the first link with that id. |
| Genes.Genome.FindLinkMut | src/neat/mod.rs:77-79 | None exactly when no link has the id. Otherwise the result is the position of the first such link, agreeing with `find_link`. |
| Genes.GenomeIndexer.constructor | src/neat/mod.rs:37 | The genome counter starts at zero. |
| Genes.GenomeIndexer.Next | src/neat/mod.rs:39-44 | The counter grows by one. The id returned is the new counter value, above every id handed out before. |
| Genes.InputIdsMembers | src/neat/mod.rs:81-89 | The input ids of n inputs are exactly the integers from -n to -1. |
| Genes.OutputIdsMembers | src/neat/mod.rs:91-97 | The ids listed for n are exactly the integers from 0 to n - 1. |
| Genes.MakeInputIds | src/neat/mod.rs:81-89 | The loop returns -1, -2, ..., -num_inputs in that order. |
| Genes.MakeOutputIds | src/neat/mod.rs:91-97 | The loop returns 0, ..., num_inputs - 1, counted over the number of inputs. |
| Genes.OutputIdsMatchOutputsOnlyWhenSquare | src/neat/mod.rs:91-97 | The listed output ids are the genome's output neuron ids if and only if it has as many inputs as outputs. |
| Genes.FreshGenome | src/neat/mod.rs:46-67 | The new genome has the given id and arity. Its neurons are the outputs 0..no followed by the inputs -1..-ni. Neuron ids are unique and every bias lies within bounds. |
| Genes.FullLinksLength | src/neat/mod.rs:59-65 | A new genome has num_inputs * num_outputs links. |
| Genes.FullLinksAt | src/neat/mod.rs:59-65 | The link at position i * no + o is enabled, runs from input i to output o, and carries a new value as its weight. |
| Genes.FullLinksRange | src/neat/mod.rs:59-65 | Every initial link is enabled, runs from an input id to an output id, and has a weight within bounds. |
| Genes.FullLinksUnique | src/neat/mod.rs:59-65 | No two initial links share an id. |
| Genes.FullLinksPairs | src/neat/mod.rs:59-65 | A link a -> b exists in a new genome if and only if a is an input id and b an output id. |
| Genes.NewGenome | src/neat/mod.rs:46-67 | Takes one id from the counter and returns the fresh genome under that id. |
| LinkGraph.AddEdgeAcyclic | src/neat/mutation.rs:83-93 | Appending a -> b to an acyclic link graph keeps it acyclic if and only if b does not reach a. |
| LinkGraph.SplitEdgeAcyclic | src/neat/mutation.rs:127-136 | Routing an existing link's endpoints through a neuron id no link uses keeps the graph acyclic. |
| LinkGraph.RemoveEdgeAcyclic | src/neat/mutation.rs:105 | Removing one link keeps an acyclic graph acyclic. |
| LinkGraph.AcyclicSubgraph | src/neat/mutation.rs:149 | Keeping only some links keeps an acyclic graph acyclic. |
| Layers.RequiredProperties | src/neat/nn.rs:21-58 | Every output is required. Every other required neuron is not an input and has a path to an output. |
| Layers.RequiredClosed | src/neat/nn.rs:21-58 | Every link into a required neuron starts at a required neuron or at an input. |
| Layers.RequiredForOutput | src/neat/nn.rs:21-58 | The loop, including both of its breaks, returns the backward closure `Required`. |
| Layers.InputsTo | src/neat/nn.rs:85-90 | The required sources of the links into n, at most one per link. |
| Layers.InputsToAppend | src/neat/nn.rs:85-90 | The sources listed for a concatenation of link lists are those of each part, in order. |
| Layers.InputsToSingle | src/neat/nn.rs:85-90 | One link lists its source exactly when it enters n from a required neuron. |
| Layers.InputsToMembers | src/neat/nn.rs:85-90 | x is listed if and only if some link x -> n exists and x is required. |
| Layers.NextLayerFacts | src/neat/nn.rs:73-95 | The next layer holds only link targets that are required and not yet available. |
| Layers.LayersFromFresh | src/neat/nn.rs:70-103 | Every layer is non-empty, required-only, and holds none of the already available neurons. |
| Layers.LayersFromDisjoint | src/neat/nn.rs:70-103 | No neuron appears in two layers. |
| Layers.LayersFromOrdered | src/neat/nn.rs:70-103 | Every required source of a link into layer k is an input or belongs to an earlier layer. |
| Layers.LayeringWellFormed | src/neat/nn.rs:60-106 | The layering is fresh, disjoint and ordered from the inputs on. |
| Layers.SelectReady | src/neat/nn.rs:83-95 | The filter keeps exactly the candidates that are required and whose required inputs are all available, each once. |
| Layers.FeedForwardLayers | src/neat/nn.rs:60-106 | The loop returns, layer by layer, exactly the sets of the layering. |
| Layers.DirectLayering | src/neat/nn.rs:21-106 | When every link runs from an input straight to an output and every output is fed, exactly the outputs are required and they form the only layer. |
| Layers.DistinctCard | src/neat/nn.rs:83-95 | A layer without repeats has as many distinct members as entries. |
| Mutation.Spread | src/neat/mutation.rs:90 | A uniform draw in [0, 1) becomes a weight or bias in [-1000, 1000). A draw of 0.5 becomes 0. |
| Mutation.FirstAdmitted | src/neat/mutation.rs:7-41 | A rejection loop panics exactly when there are no neurons. A chosen id belongs to a neuron the loop accepts. |
| Mutation.AnyAdmittedCanBeChosen | src/neat/mutation.rs:7-41 | Every accepted neuron can be the loop's result. |
| Mutation.NothingAdmittedNeverReturns | src/neat/mutation.rs:7-41 | When no neuron is accepted, the loop never returns. |
| Mutation.ChooseNeuron | src/neat/mutation.rs:7-41 | The loop returns the first accepted draw, or the panic or non-return. |
| Mutation.Successors | src/neat/mutation.rs:59-63 | The pushed ids are exactly the targets of the links leaving the current node. |
| Mutation.PushSuccessors | src/neat/mutation.rs:59-63 | The loop appends the successors to the stack in link order. |
| Mutation.WouldCreateCycle | src/neat/mutation.rs:42-67 | True if and only if in_id == out_id or out_id reaches in_id along the links. |
| Mutation.EnableKeepsEdges | src/neat/mutation.rs:78-79 | Re-enabling an existing link leaves the link graph unchanged. |
| Mutation.AddLinkSpec | src/neat/mutation.rs:69-96 | Keeps id, arity and neurons. Panics exactly when there are no neurons. Unfinished exactly when either choice has not returned. With both ends chosen: an existing link is re-enabled in place and nothing else changes (Skipped). A self-link or a link whose target reaches its source leaves the genome unchanged (Skipped). Otherwise the enabled link with weight `Spread(u)` is appended (Applied). Applied links are previously absent and have a weight in [-1000, 1000). |
| Mutation.MutateAddLink | src/neat/mutation.rs:69-96 | The method computes `AddLinkSpec`. |
| Mutation.InclusiveRange | src/neat/mutation.rs:103 | The draw lands in [lo, hi], and every value of the range is reachable. |
| Mutation.RemoveLink | src/neat/mutation.rs:98-107 | Skipped exactly when there are no links. Panics exactly when there are links and either the range `num_outputs..=len` is empty or the drawn position is negative or `len`. An applied removal deletes the link at the drawn position. Otherwise the genome is unchanged. |
| Mutation.RemoveLinkEmptyRangePanics | src/neat/mutation.rs:103 | With fewer links than `num_outputs` the range is empty and every draw panics. |
| Mutation.RemoveLinkPanicsOnSingleInputGenome | src/neat/mutation.rs:103-105 | On a fresh one-input genome (`num_outputs` links) the range holds only `len`, so every draw panics. |
| Mutation.RemoveLinkReachesEveryPosition | src/neat/mutation.rs:103-105 | Every link at a position from num_outputs to the last one can be removed. |
| Mutation.RemoveLinkCanPanic | src/neat/mutation.rs:103-105 | Drawing the top of the inclusive range indexes one past the end and panics. |
| Mutation.AddNeuron | src/neat/mutation.rs:109-139 | Applied exactly when there are links, Skipped exactly when there are none, and otherwise the genome is unchanged. It re-enables the link at position `draw % len` and changes no other old link. It appends neuron `neurons.len()` and two enabled links: source -> new with weight 1, and new -> target with the split link's weight. |
| Mutation.Detach | src/neat/mutation.rs:149 | The retained links are exactly those that neither start nor end at the id. Nothing is dropped when no link touches the id. |
| Mutation.DetachSnoc | src/neat/mutation.rs:149 | One more link at the end survives exactly when it does not touch the id. |
| Mutation.DetachAppend | src/neat/mutation.rs:149 | Retaining distributes over concatenation, so the kept links stay in order with their multiplicity. |
| Mutation.DetachSingle | src/neat/mutation.rs:149 | A single link is kept exactly when it does not touch the id. |
| Mutation.DetachKeepsUnique | src/neat/mutation.rs:149 | Retaining links keeps link ids unique. |
| Mutation.RemoveNeuronSpec | src/neat/mutation.rs:141-154 | Skipped exactly when there are no links, and then the genome is unchanged. Otherwise it is Applied exactly when the chosen hidden id is a valid position, and Panicked exactly when there are no neurons or the chosen id is not a valid position. It is Unfinished exactly when the choice has not returned. An applied removal deletes the neuron at position id and every link touching the id. |
| Mutation.RemoveChosen | src/neat/mutation.rs:141-154 | With links present and a chosen id that is a valid position, the result is the genome without that position's neuron and without the links touching the id. |
| Mutation.MutateRemoveNeuron | src/neat/mutation.rs:141-154 | The method computes `RemoveNeuronSpec`. |
| Mutation.RemoveNeuronNeverReturnsOnFreshGenome | src/neat/mutation.rs:141-154 | On a genome built by `Genome::new` with inputs and outputs, removing a neuron never returns. |
| Mutation.Mutate | src/neat/mutation.rs:163-170 | Applies the drawn one of the four mutations. |
| Mutation.MutateKeepsIdentity | src/neat/mutation.rs:163-170 | Every mutation keeps the genome's id and arity. |
| Mutation.AddLinkKeepsAcyclic | src/neat/mutation.rs:69-96 | Adding a link keeps the link graph acyclic. |
| Mutation.AddNeuronKeepsAcyclic | src/neat/mutation.rs:109-139 | Splitting a link keeps the graph acyclic when the new id is unused by links. |
| Mutation.RemoveAtKeepsAcyclic | src/neat/mutation.rs:105 | Removing a link gene keeps the graph acyclic. |
| Mutation.RemoveLinkKeepsAcyclic | src/neat/mutation.rs:98-107 | `mutate_remove_link` keeps the graph acyclic. |
| Mutation.RemoveNeuronKeepsAcyclic | src/neat/mutation.rs:141-154 | `mutate_remove_neuron` keeps the graph acyclic. |
| Mutation.MutateKeepsAcyclic | src/neat/mutation.rs:163-170 | Every mutation keeps an acyclic link graph acyclic, given an unused next neuron id when splitting. |
| Mutation.MutateKeepsUniqueLinks | src/neat/mutation.rs:163-170 | Every mutation keeps link ids unique, given an unused next neuron id when splitting. |
| Mutation.AddLinkKeepsUnique | src/neat/mutation.rs:77-93 | The duplicate check means adding a link never repeats a link id. |
| Mutation.AddNeuronKeepsUnique | src/neat/mutation.rs:127-136 | The two new links have fresh ids when the new neuron id is unused. |
| Mutation.RemoveAtKeepsUnique | src/neat/mutation.rs:105 | Removing a link gene keeps link ids unique. |
| Mutation.RemoveLinkKeepsUnique | src/neat/mutation.rs:98-107 | `mutate_remove_link` keeps link ids unique. |
| Mutation.TwoByTwoSound | src/neat/mod.rs:46-67 | The genome `Genome::new(2, 2)` builds is acyclic and has unique link ids. |
| Mutation.SplitTwiceSteps | src/neat/mutation.rs:109-139 | Splitting link 0 of that genome and then the new link -1 -> 4 adds neurons 4 and 5 and the links -1 -> 4, 4 -> 0, -1 -> 5 and 5 -> 4. |
| Mutation.DetachFour | src/neat/mutation.rs:149 | Of those links, only the original four and -1 -> 5 avoid neuron 4. |
| Mutation.RemoveFour | src/neat/mutation.rs:141-154 | Removing neuron 4 then leaves five neurons and a link -1 -> 5, so the next new neuron is named 5. |
| Mutation.SplitOntoUsedId | src/neat/mutation.rs:109-139 | On that genome the next neuron id is used by a link, and splitting -1 -> 5 yields a self-loop 5 -> 5 and a second link -1 -> 5. |
| Mutation.SplitAfterRemoveBreaksInvariants | src/neat/mutation.rs:109-154 | Split, split, remove, split turns an acyclic genome with unique link ids into one with a cycle and a repeated link id. |
| Crossover.CrossoverNeuron | src/neat/crossover.rs:3-14 | Keeps the shared id and takes the bias of one of the two genes, as drawn. |
| Crossover.CrossoverLink | src/neat/crossover.rs:16-30 | Keeps the shared id and takes the weight and the enabled flag each from one of the two genes, as drawn. |
| Crossover.CrossoverSameGenes | src/neat/crossover.rs:3-30 | Crossing a gene with itself gives the gene back. |
| Crossover.InheritedNeuronAt | src/neat/crossover.rs:42-48 | Offspring neuron k is dominant neuron k, crossed with the recessive gene of that id when there is one. |
| Crossover.InheritedLinkAt | src/neat/crossover.rs:51-57 | Offspring link k is dominant link k crossed with the dominant parent's own first link of that id. |
| Crossover.Offspring | src/neat/crossover.rs:32-60 | The offspring has the new id, the dominant arity, and one neuron and one link per dominant gene. |
| Crossover.OffspringNeuron | src/neat/crossover.rs:42-48 | Neuron k keeps the dominant id. Its bias is the dominant one or the recessive match's, and it is copied when there is no match. |
| Crossover.OffspringLink | src/neat/crossover.rs:51-57 | Link k keeps the dominant id. Its weight and flag come from dominant links with that id. |
| Crossover.FindOwnLink | src/neat/crossover.rs:52 | With unique link ids, looking up a genome's own link finds that link. |
| Crossover.FindOwnNeuron | src/neat/crossover.rs:43 | With unique neuron ids, looking up a genome's own neuron finds that neuron. |
| Crossover.OffspringLinksAreDominantLinks | src/neat/crossover.rs:51-57 | With unique link ids, the offspring's links equal the dominant parent's links whatever the draws. |
| Crossover.OffspringKeepsEdges | src/neat/crossover.rs:51-57 | The offspring's link ids are the dominant parent's, position by position. |
| Crossover.UnmatchedNeuronCopied | src/neat/crossover.rs:45-47 | A dominant neuron without a recessive match is copied unchanged. |
| Crossover.SelfCrossover | src/neat/crossover.rs:32-60 | Crossing a genome with itself gives the genome under the new id. |
| Crossover.Cross | src/neat/crossover.rs:32-60 | Takes one id from the counter and returns the offspring under that id. |
| Network.Relu | src/neat/nn.rs:4-6 | The result is non-negative, at least x, and is either x or 0. |
| Network.LoadInputs | src/neat/nn.rs:121-125 | The map's keys are exactly the input ids. |
| Network.LoadInputsValues | src/neat/nn.rs:121-125 | With distinct input ids, input id i maps to input value i. |
| Network.ZeroOutputs | src/neat/nn.rs:127-129 | Adds exactly the keys 0 .. output count - 1 to the map. |
| Network.ZeroOutputsValues | src/neat/nn.rs:127-129 | Keys 0 .. n - 1 hold 0. Every other key keeps its value. |
| Network.WeightedSum | src/neat/nn.rs:133-138 | Defined exactly when every input id has a value. No inputs sum to 0. |
| Network.Fire | src/neat/nn.rs:132-147 | Defined exactly when every input has a value. A hidden neuron's value is non-negative. An output neuron's value is the weighted sum plus bias. |
| Network.Propagate | src/neat/nn.rs:131-148 | When no neuron panics, the final map holds the seeded keys plus every neuron id. |
| Network.ReadOutputs | src/neat/nn.rs:150-156 | Defined exactly when every output id has a value. Output i is the value of output id i. |
| Network.ActivateSpec | src/neat/nn.rs:116-157 | A non-panicking activation returns one value per output id. |
| Network.PropagateFailurePersists | src/neat/nn.rs:131-148 | Once a neuron misses an input, the whole activation panics. |
| Network.SumInputs | src/neat/nn.rs:133-138 | The loop computes `WeightedSum`. |
| Network.StoreInputs | src/neat/nn.rs:121-125 | The loop computes `LoadInputs`. |
| Network.StoreZeros | src/neat/nn.rs:127-129 | The loop computes `ZeroOutputs`. |
| Network.SeedValues | src/neat/nn.rs:119-129 | The two seeding loops compute `Seed`. |
| Network.FireNeuron | src/neat/nn.rs:132-147 | The body computes `Fire`. |
| Network.FireAll | src/neat/nn.rs:131-148 | The neuron loop computes `Propagate`. |
| Network.CollectOutputs | src/neat/nn.rs:150-156 | The output loop computes `ReadOutputs`. |
| Network.Activate | src/neat/nn.rs:116-157 | `activate` computes `ActivateSpec`. |
| Network.SeedKeys | src/neat/nn.rs:121-129 | After seeding, the keys are the input ids and 0 .. output count - 1. |
| Network.FeedsForwardPrefix | src/neat/nn.rs:131-148 | When every neuron reads only available values, no prefix of the neuron loop panics. |
| Network.FeedForwardActivates | src/neat/nn.rs:131-156 | A feed-forward network never panics in the neuron loop. It returns outputs exactly when every output id is available. |
| Network.EnabledLinks | src/neat/nn.rs:164-169 | Exactly the enabled links. |
| Network.EnabledLinksAppend | src/neat/nn.rs:164-169 | Filtering distributes over concatenation, so the enabled links keep their order and multiplicity. |
| Network.EnabledLinksSingle | src/neat/nn.rs:164-169 | A single link is kept exactly when it is enabled. |
| Network.EnabledLinksSnoc | src/neat/nn.rs:164-169 | One more link at the end is kept exactly when it is enabled. |
| Network.EnabledLinksAll | src/neat/nn.rs:164-169 | When every link is enabled, the filter returns the links unchanged. |
| Network.InputsOf | src/neat/nn.rs:176-184 | Exactly the (source, weight) pairs of the links into the neuron. |
| Network.InputsOfAppend | src/neat/nn.rs:176-184 | The inputs from a concatenation of link lists are those of each part, in order. |
| Network.InputsOfSingle | src/neat/nn.rs:176-184 | One link gives one input exactly when it enters the neuron. |
| Network.CompileLayer | src/neat/nn.rs:175-192 | Every built neuron comes from a layer id with its gene's bias and its links. Every layer id with a gene is built. |
| Network.CompileLayerSnoc | src/neat/nn.rs:175-192 | One more layer id with a gene adds its neuron at the end. |
| Network.CompileLayerAllFound | src/neat/nn.rs:175-192 | When every layer id has a gene, one neuron is built per id. |
| Network.CompileLayers | src/neat/nn.rs:173-193 | Every built neuron is compiled from its gene. Every layer id with a gene is built. |
| Network.CompiledFromLayers | src/neat/nn.rs:173-193 | Every built neuron's id lies in some layer. |
| Network.CollectInputs | src/neat/nn.rs:176-184 | The loop computes `InputsOf`. |
| Network.BuildLayer | src/neat/nn.rs:175-192 | The layer loop computes `CompileLayer`. |
| Network.CreateFromGenome | src/neat/nn.rs:159-199 | Uses the genome's input ids and its output ids counted over num_inputs. The neurons are compiled from a layering that `feed_forward_layers` returns. |
| Network.CompiledPrefixFeedsForward | src/neat/nn.rs:173-193 | When every enabled link comes from a gene, the neurons built from any prefix of the layers read only available values. |
| Network.CompiledNetworkActivates | src/neat/nn.rs:159-199 | A network built from a genome whose enabled links come from genes activates without panicking. |
| Network.FreshGenomeSourcesExist | src/neat/mod.rs:59-65 | Every link of a new genome comes from an input neuron the genome holds. |
| Network.ExampleSeed | src/neat/nn.rs:265-271 | Seeding the test network maps -1, -2, -3 to 1, 2, 3 and 0, 1, 2 to 0. |
| Network.ExampleSum | src/neat/nn.rs:209-227 | The test neurons' weighted inputs sum to 14. |
| Network.ExampleActivation | src/neat/nn.rs:207-276 | Activating the test network on 1, 2, 3 gives 14, 15 and 16. |
| Network.ExampleRowInputs | src/neat/nn.rs:355-378 | The three links from one input give each output exactly one input. |
| Network.ExampleGenomeInputs | src/neat/nn.rs:354-427 | Each output of the test genome reads -1, -2 and -3 with weights 1, 2 and 3, in that order. |
| Network.ExampleLinksDirect | src/neat/nn.rs:354-427 | Every link of the test genome is enabled and runs from an input to an output. |
| Network.ExampleOutputsFed | src/neat/nn.rs:354-427 | Every output of the test genome has a link into it. |
| Network.InputsAreNotOutputs | src/neat/mod.rs:81-97 | No input id is an output id. |
| Network.ExampleGenomeLayering | src/neat/nn.rs:60-106 | The test genome keeps all its links as enabled, and its only layer is the three outputs. |
| Network.ExampleFindNeuron | src/neat/nn.rs:346-353 | The gene of output x in the test genome has bias x. |
| Network.CompileUniformLayer | src/neat/nn.rs:175-192 | A repeat-free layer whose ids all have genes with the id as bias and the same inputs compiles, in some order, to exactly the expected neurons. |
| Network.OutputLayerIds | src/neat/nn.rs:60-106 | A layer matching the outputs 0, 1 and 2 holds exactly those three ids, once each. |
| Network.ExampleLayer | src/neat/nn.rs:278-437 | Whatever order the layer comes in, it compiles to the three expected neurons. |
| Network.ExampleIds | src/neat/mod.rs:81-97 | Three inputs give the input ids -1, -2, -3 and the output ids 0, 1, 2. |
| Network.ExampleLayers | src/neat/nn.rs:60-106 | `feed_forward_layers` returns a single layer for the test genome, holding the outputs each once. |
| Network.CompileOneLayer | src/neat/nn.rs:173-193 | A single layer compiles to the neurons of that layer. |
| Network.CreateFromGenomeExample | src/neat/nn.rs:278-437 | For every layering `feed_forward_layers` can return for the test genome, the compiled network has input ids -1, -2, -3 and output ids 0, 1, 2. Once sorted by id, its neurons equal the expected ones, which is what the test compares. |
| Evolution.InsertByFitness | src/neat/population.rs:5-7 | Insertion adds exactly the new individual. |
| Evolution.InsertKeepsSorted | src/neat/population.rs:5-7 | Insertion keeps a sequence sorted from the fittest down. |
| Evolution.SortIndividualsByFitness | src/neat/population.rs:5-7 | The result is sorted from the fittest down and is a permutation of the input. |
| Evolution.WithFitness | src/neat/population.rs:5-7 | The individuals of a given fitness, in order: exactly the members with that fitness. |
| Evolution.InsertStable | src/neat/population.rs:5-7 | Insertion places the new individual after every individual of equal fitness. |
| Evolution.SortIsStable | src/neat/population.rs:5-7 | `sort_by` is stable: each fitness class keeps its input order. |
| Evolution.SortedSameClasses | src/neat/population.rs:5-7 | Two descending sequences with the same fitness classes are equal. |
| Evolution.SortedStableIsSort | src/neat/population.rs:5-7 | A descending sequence whose fitness classes keep the input order is the sort's result, so the contract pins the result down. |
| Evolution.Ceil | src/neat/population.rs:27 | The least integer at or above x. |
| Evolution.Cutoff | src/neat/population.rs:27 | The ceiling of threshold * len, with a negative value cast to 0. |
| Evolution.CutoffBounds | src/neat/population.rs:27 | A threshold in (0, 1] keeps between 1 and all of a non-empty population. |
| Evolution.DefaultCutoff | src/neat/population.rs:27 | With threshold 0.2 and 150 individuals, 30 parents are kept. |
| Evolution.Survivors | src/neat/population.rs:29-32 | The popped parents are the last cutoff individuals, the last one first. |
| Evolution.SurvivorsAreLeastFit | src/neat/population.rs:29-32 | After the sort, the parents are the least fit individuals, from the least fit up. |
| Evolution.Choose | src/neat/population.rs:40-41 | The chosen parent is one of the parents. |
| Evolution.Spawn | src/neat/population.rs:40-43 | The offspring carries the genome id it was bred under. |
| Evolution.SpawnArity | src/neat/population.rs:40-43 | The offspring has the arity of its dominant parent. |
| Evolution.Append | src/neat/population.rs:43-44 | An applied or skipped mutation pushes the genome with fitness 0. A panic stops the loop, as does a mutation that never returns. |
| Evolution.SpawnedAt | src/neat/population.rs:39-45 | Offspring k is bred under genome id last + k + 1 with the k-th draws. |
| Evolution.Collect | src/neat/population.rs:39-45 | The loop returns exactly when no mutation panics or hangs. It then returns one individual per offspring. |
| Evolution.CollectAt | src/neat/population.rs:44 | Offspring k is pushed unchanged with fitness 0. |
| Evolution.CollectFailurePersists | src/neat/population.rs:39-45 | Once an iteration panics or hangs, later iterations change nothing. |
| Evolution.SpawnAll | src/neat/population.rs:39-45 | With no parents the first spawn panics. A returning loop breeds one offspring per draw. |
| Evolution.SpawnAllFresh | src/neat/population.rs:39-45 | Offspring k has genome id last + k + 1 and fitness 0. |
| Evolution.SpawnAllKeepsArity | src/neat/population.rs:39-45 | Parents of one arity breed offspring of that arity. |
| Evolution.EmptyPopulationPanics | src/neat/population.rs:40 | An empty population cannot reproduce: the first `choose().unwrap()` panics. |
| Evolution.SpawnKeepsAcyclic | src/neat/population.rs:40-43 | Offspring of parents with acyclic graphs, and unused next neuron ids, are acyclic. |
| Evolution.SpawnAllKeepsAcyclic | src/neat/population.rs:39-45 | Every offspring of such parents has an acyclic link graph. |
| Evolution.ReproduceKeepsAcyclic | src/neat/population.rs:24-48 | The new generation of such a population is acyclic. |
| Evolution.FreshIndividuals | src/neat/population.rs:16-22 | One fresh genome per slot, with consecutive ids, the configured arity and fitness 0. |
| Evolution.Score | src/neat/population.rs:52 | Scoring keeps genomes and order and sets the given fitnesses. |
| Evolution.GenerationSpec | src/neat/population.rs:51-56 | A returning generation breeds one individual per slot and advances the counter as much. Its best is a scored individual at least as fit as all. |
| Evolution.BestIsFittest | src/neat/population.rs:53-54 | The first individual after the sort is at least as fit as every scored individual. |
| Evolution.Population.constructor | src/neat/population.rs:10-13 | Sets the individuals and the best. |
| Evolution.Population.Populate | src/neat/population.rs:16-22 | Appends the fresh individuals and advances the counter by the population size. The best is unchanged. |
| Evolution.Population.PopSurvivors | src/neat/population.rs:29-32 | Panics exactly when the cutoff exceeds the population. Otherwise it returns the survivors and leaves the rest. |
| Evolution.Population.Reproduce | src/neat/population.rs:24-48 | `reproduce` computes `ReproduceSpec`. The counter advances by the number bred, and the parents leave the population. |
| Evolution.Population.Breed | src/neat/population.rs:40-43 | One iteration takes one id and yields `Spawn` under it. |
| Evolution.Population.SpawnLoop | src/neat/population.rs:39-45 | The loop computes `SpawnAll` and advances the counter once per offspring. |
| Evolution.Population.Generation | src/neat/population.rs:52-55 | One generation ends as `GenerationSpec` does and leaves its state. |
| Evolution.Population.Run | src/neat/population.rs:50-57 | The run ends as `RunFrom` does over the generation count, and a negative count runs none. |

## Left out

- Floating point: `f32` values are Dafny reals. Rounding, NaN and infinities are not modelled, and `partial_cmp(..).unwrap()` in the sort never panics here.
- Integer widths: `i32` ids and counts are unbounded integers. The counter and `neurons.len() as i32` do not wrap.
- Random sampling: `rand` and `rand_distr` draws are parameters. The normal distribution, its mean and its deviation are not modelled, and only the clamp applied to a sample is.
- Hash container order: `HashSet` iteration in `feed_forward_layers` is arbitrary. A layer is specified as a set, and the computed list is proved to hold each member once in some order.
- The global counter: the `static mut` counter is a `GenomeIndexer` object passed to every caller. Concurrency around it is not modelled.
- In-place mutation: `&mut Genome` updates are modelled on values, so aliasing is not captured. After a panic the genome that would be returned is not meaningful.
- `compute_fitness` is a callback into training code. The model takes the scores it assigns as a parameter, and `Score` gives individual k the k-th score.
- Configuration: `Config::global` is a `Config` value holding only the settings the core reads. The other fields, the UI, serialization, the Breakout game and the training driver are not part of this model.
- Evolution.SortIndividualsByFitness: its own contract states sortedness and the permutation. Stability, which decides which of several equally fit genomes becomes `best` and which are popped as parents, is proved in `Evolution.SortIsStable`, and `Evolution.SortedStableIsSort` shows that both together determine the result.
- Network.ActivateSpec, Crossover.CrossoverNeuron, Crossover.CrossoverLink: the length `assert!` of `activate` (src/neat/nn.rs:119) and the `assert_eq!` on ids of `crossover_neuron`/`crossover_link` (src/neat/crossover.rs:4, :17) are preconditions rather than panic outcomes. Every caller in the core meets them: crossover pairs genes found by id, and the training driver passes each network as many inputs as it has input ids.
- Genes.NewGenome: takes `nat` arities, so negative `num_in`/`num_out` (which build an empty genome in the source) are not covered by this method.
- Crossover.Offspring: its own contract gives only ids, arity and lengths. The gene-by-gene content is stated in `Crossover.OffspringNeuron` and `Crossover.OffspringLink`.
- Evolution.InsertByFitness: its contract states the permutation only. Sortedness is proved in `Evolution.InsertKeepsSorted`.
- Network.LoadInputs: its contract states the keys only. The values are proved in `Network.LoadInputsValues`.
- Network.ZeroOutputs: its contract states the keys only. The values are proved in `Network.ZeroOutputsValues`.
- Layers.InputsTo: its own contract only bounds the length. Membership is proved in `Layers.InputsToMembers`, and order and multiplicity in `Layers.InputsToAppend` and `Layers.InputsToSingle`.
- Network.EnabledLinks: its own contract states membership only. Order and multiplicity are proved in `Network.EnabledLinksAppend` and `Network.EnabledLinksSingle`.
- Network.InputsOf: its own contract states membership only. Order and multiplicity are proved in `Network.InputsOfAppend` and `Network.InputsOfSingle`.
- Network.CompileLayers: its contract omits that each neuron's id lies in a layer. That fact is proved in `Network.CompiledFromLayers`.
- Mutation.MutateSpec: has no contract of its own. It dispatches to the four specifications, whose contracts and lemmas carry the properties.
- Mutation.AddNeuronKeepsAcyclic: requires the next neuron id, `neurons.len()`, to be unused by any link. The source does not guarantee this once a neuron has been removed. `Mutation.SplitAfterRemoveBreaksInvariants` shows a reachable genome where the property fails without it.
- Mutation.MutateKeepsAcyclic and Mutation.MutateKeepsUniqueLinks: they carry the same condition for a split, for the same reason.
- Network.CompiledNetworkActivates: requires every enabled link to start at a neuron with a gene. `Network.FreshGenomeSourcesExist` proves this for a new genome, but no lemma shows that the mutations preserve it.
