# modneat-python network evaluators in Dafny

This project models the three evolvable networks of modneat-python, a NEAT
extension whose connection weights keep changing while a network runs, together
with the weight-update utility the networks share:

- **ExHebbRNN** (`modneat/nn/ex_hebb_rnn.py`) is a recurrent network with two
  value buffers. Each call to `activate` reads one buffer and writes the other,
  then flips which is which.
  - Every node is computed only from the previous buffer.
  - After the node loop, every link's weight grows by the four-term (ABCD)
    Hebbian rule `eta * (a*x*y + b*x + c*y + d)`.
- **ExHebbFFN** (`modneat/nn/ex_hebb_ffn.py`) is a feed-forward network over a
  single value map.
  - Nodes are evaluated in layer order, so a later node sees values written
    earlier in the same call.
  - The same Hebbian rule then runs over the final map.
- **ModRecurrent** (`modneat/nn/mod_recurrent.py`) uses the two-buffer scheme
  of ExHebbRNN. Each node's activation is split between a standard output and
  a modulatory signal, in bool or float mode.
  - Each node's modulated value is `m_d` plus its weighted incoming signal.
  - The Hebbian update is gated by `tanh(modulated / 2)`.
- **weight_change** (`modneat/nn/utils.py`): for a (source, target) pair, it
  adds an amount to the weight of every matching link.

The node-evaluation records (`node_evals`) are the `NodeEval` datatype of
module `Records`. A record holds:
- the node key;
- an optional modulatory ratio;
- activation and aggregation functions;
- bias and response;
- its incoming links.

Each link holds its source, its weight, and the per-connection `(a, b, c, d)`
coefficients that the feed-forward `create` attaches.

Value dictionaries are `map<int, real>`. Each network is a `class` whose
`nodeEvals`, value buffers and `active` index are fields that `activate`,
`reset` and `weight_change` reassign. Every loop of the source is a method
with loop invariants, proved against a specification function (a recursive one,
except the comprehension `WeightChanged`):
- `WeightChanged` for one weight update;
- `Plasticity`, a fold of those updates over every link, for the learning pass;
- `Forward`, `FfnSweep`, `Sweep` and `Modulated` for the node loops;
- `Build` for `create`.

Lemmas state what those functions promise:
- exactly the matching links change;
- updates add up and commute;
- each link grows by exactly its own amount, on the records `create` builds and on
  every later step of a recurrent network, whose records keep their shape;
- a recurrent node reads only the previous buffer, so record order does not matter;
- a feed-forward node reads values written earlier in the same call;
- the ratio split preserves the activation;
- a closed gate freezes all weights;
- `create` links exactly the right connections.

Modules and files:

| file | module | models |
|---|---|---|
| `records.dfy` | `Records` | records, value maps, input writes, output reads, node value, zeroed buffers |
| `weight_update.dfy` | `WeightUpdate` | `utils.weight_change` and the plasticity pass |
| `compile.dfy` | `Compile` | the `create` functions of all three networks |
| `ex_hebb_rnn.dfy` | `ExHebbRnn` | `ExHebbRNN` |
| `ex_hebb_ffn.dfy` | `ExHebbFfn` | `ExHebbFFN` |
| `mod_recurrent.dfy` | `ModRecurrentNet` | `ModRecurrent` |

## Model

| member | source | states |
|---|---|---|
| Records.Zeroed | modneat/nn/ex_hebb_rnn.py:31 | zeroing a buffer keeps exactly its keys and sets every value to 0.0 |
| Records.ZeroedIdempotent | modneat/nn/ex_hebb_rnn.py:29-32 | zeroing twice gives the same buffer as zeroing once, so a repeated reset changes nothing more |
| Records.ZeroBuffer | modneat/nn/ex_hebb_rnn.py:14-22 | the constructor's loops give 0.0 at exactly the inputs, outputs, record nodes and link sources |
| Records.RecordKeysContain | modneat/nn/ex_hebb_rnn.py:19-22 | every record's node and every link's source is among the keys the constructor zeroes |
| Records.WithInputsKeys | modneat/nn/ex_hebb_rnn.py:43-45 | writing the inputs adds exactly the input keys to a buffer |
| Records.WithInputsAt | modneat/nn/ex_hebb_rnn.py:43-45 | with distinct input keys, input i ends up at key i and every other key keeps its value |
| Records.WriteInputs | modneat/nn/ex_hebb_rnn.py:43-45 | the input loop writes the inputs into both buffers, in order |
| Records.Select | modneat/nn/ex_hebb_rnn.py:63 | the output list has one value per output node |
| Records.WeightedSnoc | modneat/nn/ex_hebb_ffn.py:25-27 | gathering one more link appends its `value * weight` product |
| Records.WeightedReadsSources | modneat/nn/ex_hebb_rnn.py:48 | the weighted inputs depend only on the values at the link sources |
| Records.NodeValueReadsSources | modneat/nn/ex_hebb_rnn.py:47-50 | a node's value depends only on the values at its link sources |
| WeightUpdate.WeightChange | modneat/nn/utils.py:1-20 | the nested scan leaves exactly `WeightChanged`: in each record of the target, every link from the source has gained the amount |
| WeightUpdate.WeightChangedLink | modneat/nn/utils.py:11-17 | one link after the update: it gains the amount if its pair matches, otherwise it is unchanged, and its record's other fields are kept |
| WeightUpdate.WeightChangedAt | modneat/nn/utils.py:11-20 | only weights change; each link gains the amount exactly when its (source, target) pair matches, and otherwise gains 0 |
| WeightUpdate.WeightChangedNoMatch | modneat/nn/utils.py:14-20 | with no matching link, the records are left exactly as they were |
| WeightUpdate.WeightChangedAdditive | modneat/nn/utils.py:16 | two updates of one pair equal a single update by their sum |
| WeightUpdate.WeightChangedCommute | modneat/nn/utils.py:14-17 | updates of any two pairs commute |
| WeightUpdate.PlainDelta | modneat/nn/ex_hebb_rnn.py:54-60 | unfolds the plain amount for link (i, node) to `eta*(a*x*y + b*x + c*y + d)`; it documents that x is read from the pre-synaptic map at the source and y from the post-synaptic map at the node |
| WeightUpdate.PlasticityPass | modneat/nn/ex_hebb_rnn.py:52-61 | the pass that calls `weight_change` once per link in record order yields `Plasticity`, the fold of those updates |
| WeightUpdate.SumForCount | modneat/nn/ex_hebb_rnn.py:52-61 | the total added to a pair is its amount times the number of updates naming it |
| WeightUpdate.FoldAt | modneat/nn/ex_hebb_rnn.py:52-61 | after a list of updates, only weights have changed, and each link has gained the total of the updates naming its pair |
| WeightUpdate.PlasticityShape | modneat/nn/ex_hebb_rnn.py:52-61 | the plasticity pass changes nothing but weights |
| WeightUpdate.PlasticityCount | modneat/nn/ex_hebb_rnn.py:52-61 | a link gains its amount once for every link of the pass with the same (source, target) pair |
| WeightUpdate.PairsCount | modneat/nn/ex_hebb_rnn.py:52-61 | with distinct nodes and distinct sources per node, each link's pair occurs once in the pass |
| WeightUpdate.PlasticityAt | modneat/nn/ex_hebb_rnn.py:52-61 | on well-formed records, each link's weight grows by exactly its own amount and nothing else changes |
| WeightUpdate.ShapeLinkLearns | modneat/nn/ex_hebb_rnn.py:52-61 | records shaped like well-formed ones are well-formed too, so every later pass still grows each link by exactly its own amount and changes only weights |
| ExHebbRnn.ForwardOther | modneat/nn/ex_hebb_rnn.py:47-50 | the node loop adds exactly the record nodes to the output buffer and leaves every other key unchanged |
| ExHebbRnn.ForwardAt | modneat/nn/ex_hebb_rnn.py:47-50 | each node's new value is computed from the previous buffer alone |
| ExHebbRnn.ReorderingNodes | modneat/nn/ex_hebb_rnn.py:47-50 | a permutation of the records keeps their nodes distinct and keeps the same node set |
| ExHebbRnn.ForwardOrderFree | modneat/nn/ex_hebb_rnn.py:47-50 | with distinct nodes, any reordering of the records gives the same output buffer |
| ExHebbRnn.RunForward | modneat/nn/ex_hebb_rnn.py:47-50 | the loop yields `Forward` |
| ExHebbRnn.ExHebbRNN.constructor | modneat/nn/ex_hebb_rnn.py:7-23 | both buffers hold 0.0 at exactly the inputs, outputs, nodes and sources; the records are snapshotted; `active` is 0 |
| ExHebbRnn.ExHebbRNN.Reset | modneat/nn/ex_hebb_rnn.py:29-32 | restores the snapshot, zeroes both buffers keeping their keys, sets `active` to 0; the new state depends on constants alone |
| ExHebbRnn.ExHebbRNN.Activate | modneat/nn/ex_hebb_rnn.py:34-63 | on wrong arity: an error and no change. Otherwise: the index flips; both buffers get the inputs; the other buffer becomes `Forward` of the first; weights become `Plasticity` with the plain rule on (previous, new) values; the outputs are read from the new buffer |
| ExHebbRnn.ExHebbRNN.Create | modneat/nn/ex_hebb_rnn.py:65-95 | yields a network exactly when `Build` succeeds on the targets of kept connections; otherwise it yields the first failure. The network is freshly constructed: its records and snapshot are those `Build` returns, it has the given keys and the genome's parameters, both buffers are zero and `active` is 0 |
| Compile.RnnLinksExact | modneat/nn/ex_hebb_rnn.py:72-84 | a node's links are exactly the kept connections into it (enabled, and with source or target required), as (source, weight) |
| Compile.TargetsExact | modneat/nn/ex_hebb_rnn.py:81-87 | the record order has no duplicates; a node gets a record exactly when it has at least one kept connection |
| Compile.GroupByTarget | modneat/nn/ex_hebb_rnn.py:72-84 | the grouping loop yields the targets in first-appearance order and maps each one to its links |
| Compile.BuildSpec | modneat/nn/ex_hebb_rnn.py:86-91 | resolution succeeds exactly when every node has a gene and known functions; it then yields one record per node, in order; otherwise it yields the first node's failure |
| Compile.BuildPrefixErr | modneat/nn/ex_hebb_rnn.py:86-91 | a failure among the first nodes is the failure of the whole build |
| Compile.BuildStep | modneat/nn/ex_hebb_rnn.py:86-91 | one more resolvable node appends its record |
| Compile.BuildStepErr | modneat/nn/ex_hebb_rnn.py:86-91 | an unresolvable node ends the build with its failure |
| Compile.RecurrentWellFormed | modneat/nn/ex_hebb_rnn.py:72-91 | recurrent records have distinct nodes and at least one link each; with ratios, every record carries one |
| Compile.RnnLinksDistinct | modneat/nn/ex_hebb_rnn.py:73-84 | when the connection dictionary's (source, target) keys are unique, each node's recurrent links come from distinct sources |
| Compile.FfnLinksDistinct | modneat/nn/ex_hebb_ffn.py:75-79 | when the connection dictionary's keys are unique, each node's feed-forward links come from distinct sources |
| Compile.BuiltSourcesDistinct | modneat/nn/ex_hebb_rnn.py:86-91 | every record built from a genome with unique connection keys, of either style, belongs to its node and has links from distinct sources |
| Compile.BuiltLinkLearns | modneat/nn/ex_hebb_ffn.py:31-41 | for records built over distinct nodes from unique connection keys, the plasticity pass grows each link's weight by exactly its own amount and changes nothing else |
| Compile.RecurrentLinkLearns | modneat/nn/ex_hebb_rnn.py:52-61 | the same for the records of both recurrent networks, with no further assumption on their node order |
| Compile.CompileRecurrent | modneat/nn/ex_hebb_rnn.py:68-91 | the two loops of the recurrent `create` yield `Build` over the targets of kept connections |
| Compile.FlattenPrefix | modneat/nn/ex_hebb_ffn.py:71-72 | the nodes visited so far form a prefix of the layer order |
| Compile.Visited | modneat/nn/ex_hebb_ffn.py:71-72 | visiting one more node extends the visited prefix by that node |
| Compile.LayerStep | modneat/nn/ex_hebb_ffn.py:71-85 | one node of the layer loop extends the build by its record, or ends it with its failure |
| Compile.FfnLinksExact | modneat/nn/ex_hebb_ffn.py:75-79 | a node's feed-forward links are exactly the enabled connections into it, as (source, weight, a, b, c, d) |
| Compile.GatherFfnLinks | modneat/nn/ex_hebb_ffn.py:73-79 | the connection scan yields `FfnLinks` |
| Compile.CompileFeedForward | modneat/nn/ex_hebb_ffn.py:67-85 | the layer-by-layer loop yields `Build` over the layers in order |
| ExHebbFfn.FirstMissing | modneat/nn/ex_hebb_ffn.py:26-27 | none exactly when every source has a value; otherwise the first source without one |
| ExHebbFfn.OrderedCons | modneat/nn/ex_hebb_ffn.py:24-29 | the records are ordered exactly when the first reads only known keys and the rest are ordered after it |
| ExHebbFfn.SweepFaultFree | modneat/nn/ex_hebb_ffn.py:24-29 | the node loop completes exactly when every record reads only starting keys or nodes earlier in the list |
| ExHebbFfn.SweepKeys | modneat/nn/ex_hebb_ffn.py:24-29 | a completed loop adds exactly the record nodes and leaves other keys unchanged |
| ExHebbFfn.SweepAt | modneat/nn/ex_hebb_ffn.py:24-29 | a node's final value is computed from the map as the records before it left it, so a later node sees values written earlier in the call |
| ExHebbFfn.LayeredSweepFaultFree | modneat/nn/ex_hebb_ffn.py:62-85 | records built from a layering that orders every enabled connection never read a missing value once the inputs are set |
| ExHebbFfn.ReadsPresent | modneat/nn/ex_hebb_ffn.py:31-41 | after a completed loop, every source and node the learning pass reads has a value |
| ExHebbFfn.FirstMissingAt | modneat/nn/ex_hebb_ffn.py:26-27 | when link j's source is the first without a value, `FirstMissing` returns that source |
| ExHebbFfn.ExHebbFFN.constructor | modneat/nn/ex_hebb_ffn.py:6-11 | the map holds 0.0 at exactly the inputs and outputs |
| ExHebbFfn.ExHebbFFN.Create | modneat/nn/ex_hebb_ffn.py:62-89 | yields a network exactly when `Build` succeeds over the layers; otherwise it yields the first failure. The network is freshly constructed: it has those records, the given keys, the genome's parameters, and a map holding 0.0 at exactly the inputs and outputs |
| ExHebbFfn.ExHebbFFN.WeightChange | modneat/nn/ex_hebb_ffn.py:45-60 | the records become `WeightChanged` of the old ones; the values are untouched |
| ExHebbFfn.ExHebbFFN.Evaluate | modneat/nn/ex_hebb_ffn.py:24-29 | the node loop leaves the map and fault of `FfnSweep` |
| ExHebbFfn.ExHebbFFN.Learn | modneat/nn/ex_hebb_ffn.py:31-41 | the records become `Plasticity` with the plain rule on the final map for both sides |
| ExHebbFfn.ExHebbFFN.Activate | modneat/nn/ex_hebb_ffn.py:17-43 | on wrong arity: an error and no change. On a missing value: that error, with the records unchanged. Otherwise: the map is the sweep's, the weights are updated by the plain rule on the final map, and the outputs are read from it |
| ModRecurrentNet.ParseMode | modneat/nn/mod_recurrent.py:72-83 | "bool" and "float" are exactly the two accepted modes |
| ModRecurrentNet.Split | modneat/nn/mod_recurrent.py:72-81 | the standard output and the modulatory signal add up to the activation |
| ModRecurrentNet.BoolSplit | modneat/nn/mod_recurrent.py:72-78 | in bool mode one part is always zero; its first two clauses only unfold `Split` to document the 0.5 threshold |
| ModRecurrentNet.FloatSplit | modneat/nn/mod_recurrent.py:79-81 | in float mode ratio 0 is purely standard and ratio 1 purely modulatory; its last clause only unfolds `Split` to document that the signal is `activation * ratio` |
| ModRecurrentNet.SweepFaultFree | modneat/nn/mod_recurrent.py:66-83 | the node loop completes exactly when every ratio lies in [0, 1] and, if any record exists, the mode is "bool" or "float" |
| ModRecurrentNet.SweepOther | modneat/nn/mod_recurrent.py:66-83 | a completed loop writes exactly the record nodes, in both maps |
| ModRecurrentNet.SweepKeys | modneat/nn/mod_recurrent.py:66-83 | when the record nodes are already keys of both maps, the loop leaves both key sets unchanged, whether it completes or fails |
| ModRecurrentNet.SweepAt | modneat/nn/mod_recurrent.py:66-81 | each node's standard output and signal are the split of its activation on the previous buffer, and they sum to it |
| ModRecurrentNet.RunSweep | modneat/nn/mod_recurrent.py:66-83 | the loop yields `Sweep`: both maps and the first error |
| ModRecurrentNet.SignalSilent | modneat/nn/mod_recurrent.py:86-89 | a node whose sources send no signal receives zero modulation |
| ModRecurrentNet.ModulatedOther | modneat/nn/mod_recurrent.py:86-89 | the modulated-value loop writes exactly the record nodes |
| ModRecurrentNet.ModulatedAt | modneat/nn/mod_recurrent.py:86-89 | with distinct nodes, each node's modulated value is `m_d` plus the sum of its sources' signals times weights |
| ModRecurrentNet.RunModulated | modneat/nn/mod_recurrent.py:86-89 | the loop yields `Modulated` |
| ModRecurrentNet.GatedDelta | modneat/nn/mod_recurrent.py:93-100 | unfolds the gated amount to `tanh(modulated[node]/2) * eta*(a*x*y + b*x + c*y + d)`; it documents that x is `ivalues[src]` and y is `ovalues[node]` |
| ModRecurrentNet.GateClosed | modneat/nn/mod_recurrent.py:91-101 | when every node's gate is zero, the pass leaves every weight as it was |
| ModRecurrentNet.ModRecurrent.constructor | modneat/nn/mod_recurrent.py:9-34 | all four maps hold 0.0 at exactly the inputs, outputs, nodes and sources; the records are snapshotted; `active` is 0 |
| ModRecurrentNet.ModRecurrent.Create | modneat/nn/mod_recurrent.py:105-135 | yields a network exactly when `Build` (with ratios) succeeds on the targets of kept connections; otherwise it yields the first failure. The network is freshly constructed: its records and snapshot are those `Build` returns; it has the given keys, the genome's parameters, and the given mode, scope, coefficients and tanh; all four maps are zero and `active` is 0 |
| ModRecurrentNet.ModRecurrent.AssertType | modneat/nn/mod_recurrent.py:40-45 | reports a scope mismatch exactly when a "local" scope has a nonzero global coefficient or a "global" scope has a nonzero local one |
| ModRecurrentNet.ModRecurrent.Reset | modneat/nn/mod_recurrent.py:47-52 | restores the snapshot, zeroes both buffers, makes the signal and modulated maps copies of buffer 0, and sets `active` to 0 |
| ModRecurrentNet.ModRecurrent.Learn | modneat/nn/mod_recurrent.py:85-101 | the modulated values become `Modulated` of the signals; the records become `Plasticity` with the gated rule; the buffers are untouched |
| ModRecurrentNet.ModRecurrent.Activate | modneat/nn/mod_recurrent.py:54-103 | on wrong arity: an error and no change. Otherwise: the index flips, and both buffers and the signal map are the sweep's. On a sweep error: that error, with weights and modulated values unchanged. Otherwise: the modulated values are computed and weights are updated by the gated rule; the outputs are read from the new buffer |

## Left out

- I/O, the training driver and the `genome_type` accessors are not modelled. Neither are NEAT's genomes, reproduction or configuration parsing.
- Floating point is not modelled: values are exact reals. The rounding of `a * (1.0 - ratio)` and `a * ratio` is not modelled, so `Split`'s sum property holds exactly here.
- Activation and aggregation functions and `math.tanh` are opaque function parameters, not the library's implementations.
- `required_for_output` and `feed_forward_layers` (modneat/graphs.py) are not part of this model.
  - The recurrent `Create` methods take the required-node set as a parameter.
  - The feed-forward `Create` takes the layers as a sequence of sequences, in the order the source's layer sets are iterated.
  - `LayeredSweepFaultFree` states fault-freedom over that flattened order, as an assumption about the layering.
- Genome dictionaries are modelled as follows:
  - `genome.connections` is a sequence of genes in insertion order. The feed-forward `create`'s lookup `genome.connections[conn_key]` reads the gene being scanned; keys are unique (`Compile.UniqueKeys`), so this is the same gene.
  - `genome.global_params[0].__dict__` becomes a `Params` value.
- Function lookups by name use `.get`, which yields `None` for an unknown name. The model turns that into an `UnknownActivation` or `UnknownAggregation` error at `create`, instead of a crash at the first `activate`.
  - The recurrent `create` looks up the activation first.
  - The feed-forward one looks up the aggregation first, but the model reports the activation failure first in both.
  - A missing node gene, a `KeyError` in the source, is reported as `MissingNode`.
- Every `raise` and `assert` of the source is modelled as an `Err` result. This covers the arity error, the ratio check, an unknown mode and a missing value in the feed-forward map. Python's partial updates before the error are kept; the state changes up to that point are part of each contract.
- `copy.deepcopy` and `copy.copy` are modelled as value snapshots. Records and maps are immutable values here, so the source's aliasing cannot arise: `modulate_values` and `modulated_values` alias nothing.
- `ModRecurrent` extends `Recurrent`. The superclass module is not part of this model, and neither is the call to its constructor (modneat/nn/mod_recurrent.py:10).
- `Records.At` returns 0.0 for a missing key. Every read the networks perform is at a key their invariants keep present, so that default is never observed. `ExHebbFFN` models its one unguarded read, at a missing source, as the `MissingValue` error.
- ExHebbRnn.ExHebbRNN.constructor requires every record to have a link, which the source needs only once `weight_change` reads `links[0]` during `activate`. Records built by `Create` always satisfy it (`Compile.RecurrentWellFormed`).
- ModRecurrentNet.ModRecurrent.constructor requires every record to have a link and a modulatory ratio, for the same reason. The source's 7-field records always carry a ratio.
- WeightUpdate.WeightChange models the 2-field branch of `utils.weight_change` (lines 11-20), which is the branch the recurrent networks reach. The model gives records with any link width that branch's effect. The source's 6-field branch (lines 22-31) raises on its first match instead (see below). The feed-forward network never calls `utils.weight_change`. It has its own method (modneat/nn/ex_hebb_ffn.py:45-60), modelled as `ExHebbFfn.ExHebbFFN.WeightChange`.
- `activate`'s loops are split into helper methods (`RunForward`, `PlasticityPass`, `Evaluate`, `Learn`, `RunSweep`, `RunModulated`). These split the proofs; they do not change the order of effects.

## Where the model follows the evident intent rather than the code

Each of these lines makes the source fail before the behaviour it describes can happen. The model implements the behaviour described by the surrounding code, its comments and the ExHebbRNN counterpart:

- `modneat/nn/mod_recurrent.py:34` sets `self.activate = 0`, replacing the method with an integer, where `self.active = 0` is meant. The model's constructor sets `active` to 0.
- `modneat/nn/mod_recurrent.py:42` and `:72` read `self.config`, which the constructor never stores. The model stores the mode, scope and coefficients as constants of the network.
- `modneat/nn/mod_recurrent.py:135` constructs the undefined `ModExHebbRNN` with four arguments. The model's `Create` builds a `ModRecurrent`, with the configuration values as parameters.
- `modneat/nn/utils.py:5` unpacks six fields per record, but `ModRecurrent`'s records have seven. The model applies the same update to them.
- `modneat/nn/utils.py:26` and `:28` index slot 6 of a record that line 5 unpacks as six fields (slots 0 to 5). The 6-field branch therefore raises `IndexError` on its first matching link. The model adds the amount to the matching link's weight, as the 2-field branch does.
- `modneat/nn/utils.py:15-17` would write into slot 5 of a 7-field record, which is `response`, not the links. The model updates the links.
- `modneat/nn/ex_hebb_ffn.py:26` and `:33` unpack 6-field links as `(i, w)` pairs. The model reads the source and the weight of each link.
