/** Building node-evaluation records from a genome: the `create` functions of the
    three networks (modneat/nn/ex_hebb_rnn.py, ex_hebb_ffn.py, mod_recurrent.py).
    The graph analysers that decide which nodes are needed, and in which layers,
    are inputs here: the required set and the layer list. */
module Compile {
  import opened Records
  import WeightUpdate

  /** The parts of a node gene that a network reads. `modulatory` is read only by
      the modulated network. */
  datatype NodeGene = NodeGene(bias: real, response: real, activation: string, aggregation: string, modulatory: real)

  /** A connection gene with its key (src, tgt), weight, enabled flag and its own
      a, b, c, d coefficients. */
  datatype ConnGene = ConnGene(src: Key, tgt: Key, weight: real, enabled: bool, a: real, b: real, c: real, d: real)

  /** The genome: node genes by key, connection genes in the dictionary's insertion
      order, and the global plasticity parameters. The dictionary is keyed by
      (source, target); `UniqueKeys` states that, for the lemmas that rely on it. */
  datatype Genome = Genome(nodes: map<Key, NodeGene>, connections: seq<ConnGene>, params: Params)

  /** The activation and aggregation functions known by name. */
  datatype Tables = Tables(activations: map<string, Activation>, aggregations: map<string, Aggregation>)

  /** How a record's links are gathered: the recurrent networks keep (source, weight)
      pairs of connections touching the required set; the feed-forward network keeps
      6-field links of every enabled connection. */
  datatype Style = Recurrent(required: set<Key>) | FeedForward

  // ---------------------------------------------------------------------------
  // Gathering links

  /** A connection the recurrent `create` keeps: enabled, and its target or its
      source is required for the outputs. */
  predicate Kept(c: ConnGene, required: set<Key>)
  {
    c.enabled && (c.tgt in required || c.src in required)
  }

  /** The `node_inputs` dictionary's keys in insertion order: targets of kept
      connections, each at its first appearance. */
  function Targets(cs: seq<ConnGene>, required: set<Key>): seq<Key>
    decreases |cs|
  {
    if cs == [] then []
    else
      var ts := Targets(cs[..|cs| - 1], required);
      var c := cs[|cs| - 1];
      if Kept(c, required) && c.tgt !in ts then ts + [c.tgt] else ts
  }

  /** `node_inputs[t]`: the (source, weight) pairs of the kept connections into t,
      in connection order. */
  function RnnLinks(cs: seq<ConnGene>, required: set<Key>, t: Key): seq<Link>
    decreases |cs|
  {
    if cs == [] then []
    else
      var c := cs[|cs| - 1];
      RnnLinks(cs[..|cs| - 1], required, t) +
        (if Kept(c, required) && c.tgt == t then [Link(c.src, c.weight, None)] else [])
  }

  /** The feed-forward links of t: (source, weight, a, b, c, d) of every enabled
      connection into t, in connection order. */
  function FfnLinks(cs: seq<ConnGene>, t: Key): seq<Link>
    decreases |cs|
  {
    if cs == [] then []
    else
      var c := cs[|cs| - 1];
      FfnLinks(cs[..|cs| - 1], t) +
        (if c.enabled && c.tgt == t then [Link(c.src, c.weight, Some(Coeffs(c.a, c.b, c.c, c.d)))] else [])
  }

  function LinksFor(style: Style, cs: seq<ConnGene>, t: Key): seq<Link>
  {
    match style
    case Recurrent(required) => RnnLinks(cs, required, t)
    case FeedForward => FfnLinks(cs, t)
  }

  /** Every kept connection into t appears among t's links, and every link of t
      comes from a kept connection into t. */
  lemma {:induction false} RnnLinksExact(cs: seq<ConnGene>, required: set<Key>, t: Key)
    ensures forall i :: 0 <= i < |cs| && Kept(cs[i], required) && cs[i].tgt == t ==>
      Link(cs[i].src, cs[i].weight, None) in RnnLinks(cs, required, t)
    ensures forall l :: l in RnnLinks(cs, required, t) ==>
      exists i :: 0 <= i < |cs| && Kept(cs[i], required) && cs[i].tgt == t && l == Link(cs[i].src, cs[i].weight, None)
    decreases |cs|
  {
    if cs != [] {
      var init := cs[..|cs| - 1];
      RnnLinksExact(init, required, t);
      forall l | l in RnnLinks(cs, required, t)
        ensures exists i :: 0 <= i < |cs| && Kept(cs[i], required) && cs[i].tgt == t && l == Link(cs[i].src, cs[i].weight, None)
      {
        if l in RnnLinks(init, required, t) {
          var i :| 0 <= i < |init| && Kept(init[i], required) && init[i].tgt == t && l == Link(init[i].src, init[i].weight, None);
          assert cs[i] == init[i];
        } else {
          assert cs[|cs| - 1].tgt == t;
        }
      }
      forall i | 0 <= i < |cs| && Kept(cs[i], required) && cs[i].tgt == t
        ensures Link(cs[i].src, cs[i].weight, None) in RnnLinks(cs, required, t)
      {
        if i < |cs| - 1 {
          assert cs[i] == init[i];
        }
      }
    }
  }

  /** Every enabled connection into t appears among t's feed-forward links with its
      coefficients, and every such link comes from an enabled connection into t. */
  lemma {:induction false} FfnLinksExact(cs: seq<ConnGene>, t: Key)
    ensures forall i :: 0 <= i < |cs| && cs[i].enabled && cs[i].tgt == t ==>
      Link(cs[i].src, cs[i].weight, Some(Coeffs(cs[i].a, cs[i].b, cs[i].c, cs[i].d))) in FfnLinks(cs, t)
    ensures forall l :: l in FfnLinks(cs, t) ==>
      exists i :: 0 <= i < |cs| && cs[i].enabled && cs[i].tgt == t &&
        l == Link(cs[i].src, cs[i].weight, Some(Coeffs(cs[i].a, cs[i].b, cs[i].c, cs[i].d)))
    decreases |cs|
  {
    if cs != [] {
      var init := cs[..|cs| - 1];
      FfnLinksExact(init, t);
      forall l | l in FfnLinks(cs, t)
        ensures exists i :: (0 <= i < |cs| && cs[i].enabled && cs[i].tgt == t &&
          l == Link(cs[i].src, cs[i].weight, Some(Coeffs(cs[i].a, cs[i].b, cs[i].c, cs[i].d))))
      {
        if l in FfnLinks(init, t) {
          var i :| 0 <= i < |init| && init[i].enabled && init[i].tgt == t &&
            l == Link(init[i].src, init[i].weight, Some(Coeffs(init[i].a, init[i].b, init[i].c, init[i].d)));
          assert cs[i] == init[i];
        } else {
          assert cs[|cs| - 1].tgt == t;
        }
      }
      forall i | 0 <= i < |cs| && cs[i].enabled && cs[i].tgt == t
        ensures Link(cs[i].src, cs[i].weight, Some(Coeffs(cs[i].a, cs[i].b, cs[i].c, cs[i].d))) in FfnLinks(cs, t)
      {
        if i < |cs| - 1 {
          assert cs[i] == init[i];
        }
      }
    }
  }

  /** A node is a `node_inputs` key exactly when it has at least one link, and no
      key is inserted twice. */
  lemma {:induction false} TargetsExact(cs: seq<ConnGene>, required: set<Key>)
    ensures Distinct(Targets(cs, required))
    ensures forall t :: t in Targets(cs, required) <==> |RnnLinks(cs, required, t)| > 0
    decreases |cs|
  {
    if cs != [] {
      TargetsExact(cs[..|cs| - 1], required);
    }
  }

  /** `genome.connections` is a dictionary keyed by (source, target): no two genes
      share a key. */
  ghost predicate UniqueKeys(cs: seq<ConnGene>)
  {
    forall i, j :: 0 <= i < j < |cs| ==> !(cs[i].src == cs[j].src && cs[i].tgt == cs[j].tgt)
  }

  /** With unique keys, a node's recurrent links come from distinct sources. */
  lemma {:induction false} RnnLinksDistinct(cs: seq<ConnGene>, required: set<Key>, t: Key)
    requires UniqueKeys(cs)
    ensures DistinctSources(RnnLinks(cs, required, t))
    decreases |cs|
  {
    if cs != [] {
      var init := cs[..|cs| - 1];
      var c := cs[|cs| - 1];
      RnnLinksDistinct(init, required, t);
      RnnLinksExact(init, required, t);
      var prev := RnnLinks(init, required, t);
      if Kept(c, required) && c.tgt == t {
        forall a | 0 <= a < |prev| ensures prev[a].src != c.src {
          assert prev[a] in prev;
          var i :| 0 <= i < |init| && Kept(init[i], required) && init[i].tgt == t &&
            prev[a] == Link(init[i].src, init[i].weight, None);
          assert init[i] == cs[i];
        }
      }
    }
  }

  /** With unique keys, a node's feed-forward links come from distinct sources. */
  lemma {:induction false} FfnLinksDistinct(cs: seq<ConnGene>, t: Key)
    requires UniqueKeys(cs)
    ensures DistinctSources(FfnLinks(cs, t))
    decreases |cs|
  {
    if cs != [] {
      var init := cs[..|cs| - 1];
      var c := cs[|cs| - 1];
      FfnLinksDistinct(init, t);
      FfnLinksExact(init, t);
      var prev := FfnLinks(init, t);
      if c.enabled && c.tgt == t {
        forall a | 0 <= a < |prev| ensures prev[a].src != c.src {
          assert prev[a] in prev;
          var i :| (0 <= i < |init| && init[i].enabled && init[i].tgt == t &&
            prev[a] == Link(init[i].src, init[i].weight, Some(Coeffs(init[i].a, init[i].b, init[i].c, init[i].d))));
          assert init[i] == cs[i];
        }
      }
    }
  }

  // ---------------------------------------------------------------------------
  // Resolving nodes

  /** The genome has a gene for t and both of its function names are known. */
  predicate Resolvable(g: Genome, tables: Tables, t: Key)
  {
    t in g.nodes && g.nodes[t].activation in tables.activations && g.nodes[t].aggregation in tables.aggregations
  }

  /** Why t cannot be resolved: `genome.nodes[t]` has no entry, or a function name
      is unknown. */
  function Failure(g: Genome, tables: Tables, t: Key): Error
    requires !Resolvable(g, tables, t)
  {
    if t !in g.nodes then MissingNode(t)
    else if g.nodes[t].activation !in tables.activations then UnknownActivation(g.nodes[t].activation)
    else UnknownAggregation(g.nodes[t].aggregation)
  }

  /** The record of node t with the given links; the modulated network's records
      also carry the gene's modulatory ratio. */
  function Record(g: Genome, tables: Tables, t: Key, links: seq<Link>, withRatio: bool): NodeEval
    requires Resolvable(g, tables, t)
  {
    var n := g.nodes[t];
    NodeEval(t, if withRatio then Some(n.modulatory) else None,
      tables.activations[n.activation], tables.aggregations[n.aggregation],
      n.bias, n.response, links)
  }

  /** The records of the nodes ts, in that order, or the failure of the first node
      that cannot be resolved. */
  function Build(g: Genome, tables: Tables, ts: seq<Key>, style: Style, withRatio: bool): Result<seq<NodeEval>>
    decreases |ts|
  {
    if ts == [] then Ok([])
    else
      var t := ts[|ts| - 1];
      match Build(g, tables, ts[..|ts| - 1], style, withRatio)
      case Err(e) => Err(e)
      case Ok(rs) =>
        if Resolvable(g, tables, t) then Ok(rs + [Record(g, tables, t, LinksFor(style, g.connections, t), withRatio)])
        else Err(Failure(g, tables, t))
  }

  /** The build succeeds exactly when every node resolves; it then yields one record
      per node, in order, with the node's links; otherwise it reports the failure of
      the first node that does not resolve. */
  lemma {:induction false} BuildSpec(g: Genome, tables: Tables, ts: seq<Key>, style: Style, withRatio: bool)
    ensures var r := Build(g, tables, ts, style, withRatio);
      (r.Ok? <==> forall k :: 0 <= k < |ts| ==> Resolvable(g, tables, ts[k])) &&
      (r.Ok? ==> |r.value| == |ts| && forall k :: 0 <= k < |ts| ==>
        Resolvable(g, tables, ts[k]) &&
        r.value[k] == Record(g, tables, ts[k], LinksFor(style, g.connections, ts[k]), withRatio)) &&
      (r.Err? ==> exists k :: (0 <= k < |ts| && !Resolvable(g, tables, ts[k]) &&
        (forall q :: 0 <= q < k ==> Resolvable(g, tables, ts[q])) && r.error == Failure(g, tables, ts[k])))
    decreases |ts|
  {
    if ts != [] {
      var init := ts[..|ts| - 1];
      var t := ts[|ts| - 1];
      BuildSpec(g, tables, init, style, withRatio);
      assert forall k :: 0 <= k < |init| ==> init[k] == ts[k];
      var r := Build(g, tables, ts, style, withRatio);
      if Build(g, tables, init, style, withRatio).Ok? && !Resolvable(g, tables, t) {
        assert ts[|ts| - 1] == t;
      }
    }
  }

  /** A failure among the first nodes is the failure of the whole list. */
  lemma {:induction false} BuildPrefixErr(g: Genome, tables: Tables, ts: seq<Key>, n: nat, style: Style, withRatio: bool)
    requires n <= |ts| && Build(g, tables, ts[..n], style, withRatio).Err?
    ensures Build(g, tables, ts, style, withRatio) == Build(g, tables, ts[..n], style, withRatio)
    decreases |ts| - n
  {
    if n < |ts| {
      assert ts[..|ts| - 1][..n] == ts[..n];
      BuildPrefixErr(g, tables, ts[..|ts| - 1], n, style, withRatio);
    } else {
      assert ts[..n] == ts;
    }
  }

  /** The records `ExHebbRNN.create` and `ModRecurrent.create` build have distinct
      nodes, each with at least one link, so they meet the recurrent networks'
      requirements. */
  lemma RecurrentWellFormed(g: Genome, required: set<Key>, tables: Tables, withRatio: bool)
    requires Build(g, tables, Targets(g.connections, required), Recurrent(required), withRatio).Ok?
    ensures var rs := Build(g, tables, Targets(g.connections, required), Recurrent(required), withRatio).value;
      DistinctNodes(rs) && LinksPresent(rs) &&
      (withRatio ==> forall k :: 0 <= k < |rs| ==> rs[k].modulatory.Some?)
  {
    var ts := Targets(g.connections, required);
    BuildSpec(g, tables, ts, Recurrent(required), withRatio);
    var rs := Build(g, tables, ts, Recurrent(required), withRatio).value;
    TargetsExact(g.connections, required);
    forall k | 0 <= k < |rs| ensures |rs[k].links| > 0 {
      assert ts[k] in ts;
    }
  }

  /** Every record built from a genome, of either style, has links from distinct
      sources, since the genome's connections are keyed by (source, target). */
  lemma BuiltSourcesDistinct(g: Genome, tables: Tables, ts: seq<Key>, style: Style, withRatio: bool)
    requires UniqueKeys(g.connections) && Build(g, tables, ts, style, withRatio).Ok?
    ensures var rs := Build(g, tables, ts, style, withRatio).value;
      |rs| == |ts| && forall k :: 0 <= k < |rs| ==> rs[k].node == ts[k] && DistinctSources(rs[k].links)
  {
    BuildSpec(g, tables, ts, style, withRatio);
    var rs := Build(g, tables, ts, style, withRatio).value;
    forall k | 0 <= k < |rs| ensures rs[k].node == ts[k] && DistinctSources(rs[k].links) {
      match style
      case Recurrent(required) => RnnLinksDistinct(g.connections, required, ts[k]);
      case FeedForward => FfnLinksDistinct(g.connections, ts[k]);
    }
  }

  /** Built records with distinct nodes learn link by link: on a genome with unique
      connection keys, the plasticity pass grows each link's weight by exactly its
      own amount and changes nothing else. */
  lemma BuiltLinkLearns(g: Genome, tables: Tables, ts: seq<Key>, style: Style, withRatio: bool,
                        rule: WeightUpdate.Rule, k: nat, j: nat)
    requires UniqueKeys(g.connections) && Distinct(ts) && Build(g, tables, ts, style, withRatio).Ok?
    requires k < |Build(g, tables, ts, style, withRatio).value|
    requires j < |Build(g, tables, ts, style, withRatio).value[k].links|
    ensures var rs := Build(g, tables, ts, style, withRatio).value;
      SameShape(WeightUpdate.Plasticity(rs, rule), rs) &&
      WeightUpdate.Plasticity(rs, rule)[k].links[j].weight ==
        rs[k].links[j].weight + WeightUpdate.Delta(rule, rs[k].links[j].src, rs[k].node)
  {
    var rs := Build(g, tables, ts, style, withRatio).value;
    BuiltSourcesDistinct(g, tables, ts, style, withRatio);
    assert DistinctNodes(rs) by {
      forall a, b | 0 <= a < b < |rs| ensures rs[a].node != rs[b].node {
        assert rs[a].node == ts[a] && rs[b].node == ts[b];
      }
    }
    WeightUpdate.PlasticityAt(rs, rule, k, j);
  }

  /** The same for both recurrent networks, whose record order has no repeated
      node by construction. */
  lemma RecurrentLinkLearns(g: Genome, required: set<Key>, tables: Tables, withRatio: bool,
                            rule: WeightUpdate.Rule, k: nat, j: nat)
    requires UniqueKeys(g.connections)
    requires Build(g, tables, Targets(g.connections, required), Recurrent(required), withRatio).Ok?
    requires k < |Build(g, tables, Targets(g.connections, required), Recurrent(required), withRatio).value|
    requires j < |Build(g, tables, Targets(g.connections, required), Recurrent(required), withRatio).value[k].links|
    ensures var rs := Build(g, tables, Targets(g.connections, required), Recurrent(required), withRatio).value;
      SameShape(WeightUpdate.Plasticity(rs, rule), rs) &&
      WeightUpdate.Plasticity(rs, rule)[k].links[j].weight ==
        rs[k].links[j].weight + WeightUpdate.Delta(rule, rs[k].links[j].src, rs[k].node)
  {
    TargetsExact(g.connections, required);
    BuiltLinkLearns(g, tables, Targets(g.connections, required), Recurrent(required), withRatio, rule, k, j);
  }

  // ---------------------------------------------------------------------------
  // The create loops

  /** The first loop of the recurrent `create`: the `node_inputs` dictionary, with
      its keys in insertion order. */
  method GroupByTarget(cs: seq<ConnGene>, required: set<Key>) returns (nodeInputs: map<Key, seq<Link>>, order: seq<Key>)
    ensures order == Targets(cs, required)
    ensures nodeInputs.Keys == Elems(order)
    ensures forall t :: t in nodeInputs ==> nodeInputs[t] == RnnLinks(cs, required, t)
  {
    nodeInputs, order := map[], [];
    var i := 0;
    while i < |cs|
      invariant 0 <= i <= |cs|
      invariant order == Targets(cs[..i], required)
      invariant nodeInputs.Keys == Elems(order)
      invariant forall t :: t in nodeInputs ==> nodeInputs[t] == RnnLinks(cs[..i], required, t)
      invariant forall t :: t !in nodeInputs ==> RnnLinks(cs[..i], required, t) == []
    {
      var c := cs[i];
      assert cs[..i + 1][..i] == cs[..i] && cs[..i + 1][i] == c;
      if c.enabled && (c.tgt in required || c.src in required) {
        if c.tgt !in nodeInputs {
          nodeInputs := nodeInputs[c.tgt := [Link(c.src, c.weight, None)]];
          order := order + [c.tgt];
        } else {
          nodeInputs := nodeInputs[c.tgt := nodeInputs[c.tgt] + [Link(c.src, c.weight, None)]];
        }
      }
      i := i + 1;
    }
    assert cs[..i] == cs;
  }

  /** One more resolvable node appends its record. */
  lemma BuildStep(g: Genome, tables: Tables, ts: seq<Key>, k: nat, style: Style, withRatio: bool, records: seq<NodeEval>)
    requires k < |ts| && Build(g, tables, ts[..k], style, withRatio) == Ok(records) && Resolvable(g, tables, ts[k])
    ensures Build(g, tables, ts[..k + 1], style, withRatio) ==
      Ok(records + [Record(g, tables, ts[k], LinksFor(style, g.connections, ts[k]), withRatio)])
  {
    assert ts[..k + 1][..k] == ts[..k];
  }

  /** An unresolvable node ends the list's build with its failure. */
  lemma BuildStepErr(g: Genome, tables: Tables, ts: seq<Key>, k: nat, style: Style, withRatio: bool, records: seq<NodeEval>)
    requires k < |ts| && Build(g, tables, ts[..k], style, withRatio) == Ok(records) && !Resolvable(g, tables, ts[k])
    ensures Build(g, tables, ts, style, withRatio) == Err(Failure(g, tables, ts[k]))
  {
    assert ts[..k + 1][..k] == ts[..k];
    BuildPrefixErr(g, tables, ts, k + 1, style, withRatio);
  }

  /** The recurrent `create`: group the kept connections by target, in order of a
      target's first appearance, then build one record per target. */
  method CompileRecurrent(g: Genome, required: set<Key>, tables: Tables, withRatio: bool) returns (r: Result<seq<NodeEval>>)
    ensures r == Build(g, tables, Targets(g.connections, required), Recurrent(required), withRatio)
  {
    var nodeInputs, order := GroupByTarget(g.connections, required);
    var records: seq<NodeEval> := [];
    var k := 0;
    while k < |order|
      invariant 0 <= k <= |order|
      invariant Build(g, tables, order[..k], Recurrent(required), withRatio) == Ok(records)
    {
      var t := order[k];
      assert t in nodeInputs;
      if !Resolvable(g, tables, t) {
        BuildStepErr(g, tables, order, k, Recurrent(required), withRatio, records);
        return Err(Failure(g, tables, t));
      }
      BuildStep(g, tables, order, k, Recurrent(required), withRatio, records);
      records := records + [Record(g, tables, t, nodeInputs[t], withRatio)];
      k := k + 1;
    }
    assert order[..k] == order;
    return Ok(records);
  }

  /** The layers concatenated: the order in which the feed-forward `create` visits
      nodes. */
  function Flatten(layers: seq<seq<Key>>): seq<Key>
    decreases |layers|
  {
    if layers == [] then [] else Flatten(layers[..|layers| - 1]) + layers[|layers| - 1]
  }

  lemma {:induction false} FlattenPrefix(layers: seq<seq<Key>>, l: nat, n: nat)
    requires l < |layers| && n <= |layers[l]|
    ensures |Flatten(layers[..l]) + layers[l][..n]| <= |Flatten(layers)|
    ensures Flatten(layers)[..|Flatten(layers[..l]) + layers[l][..n]|] == Flatten(layers[..l]) + layers[l][..n]
    decreases |layers|
  {
    var init := layers[..|layers| - 1];
    if l < |layers| - 1 {
      assert init[..l] == layers[..l] && init[l] == layers[l];
      FlattenPrefix(init, l, n);
    } else {
      assert layers[..l] == init;
    }
  }

  /** The nodes visited so far, as a prefix of all nodes in layer order. */
  lemma Visited(layers: seq<seq<Key>>, l: nat, n: nat)
    requires l < |layers| && n < |layers[l]|
    ensures var done := Flatten(layers[..l]) + layers[l][..n + 1];
      |done| <= |Flatten(layers)| && done == Flatten(layers)[..|done|] &&
      done[..|done| - 1] == Flatten(layers[..l]) + layers[l][..n] && done[|done| - 1] == layers[l][n]
  {
    FlattenPrefix(layers, l, n + 1);
    assert layers[l][..n + 1] == layers[l][..n] + [layers[l][n]];
  }

  /** One node of the feed-forward `create`: a resolvable node appends its record
      to those of the nodes before it; any other ends the whole build with its
      failure. */
  lemma LayerStep(g: Genome, tables: Tables, layers: seq<seq<Key>>, l: nat, n: nat, records: seq<NodeEval>)
    requires l < |layers| && n < |layers[l]|
    requires Build(g, tables, Flatten(layers[..l]) + layers[l][..n], FeedForward, false) == Ok(records)
    ensures var node := layers[l][n];
      (Resolvable(g, tables, node) ==>
        Build(g, tables, Flatten(layers[..l]) + layers[l][..n + 1], FeedForward, false) ==
          Ok(records + [Record(g, tables, node, FfnLinks(g.connections, node), false)])) &&
      (!Resolvable(g, tables, node) ==>
        Build(g, tables, Flatten(layers), FeedForward, false) == Err(Failure(g, tables, node)))
  {
    var done := Flatten(layers[..l]) + layers[l][..n + 1];
    Visited(layers, l, n);
    var k := |done| - 1;
    assert done[..k + 1] == done;
    if !Resolvable(g, tables, layers[l][n]) {
      BuildStepErr(g, tables, done, k, FeedForward, false, records);
      BuildPrefixErr(g, tables, Flatten(layers), |done|, FeedForward, false);
    } else {
      BuildStep(g, tables, done, k, FeedForward, false, records);
    }
  }

  /** The innermost loop of the feed-forward `create`: the enabled connections
      into `node`, as 6-field links, in connection order. */
  method GatherFfnLinks(cs: seq<ConnGene>, node: Key) returns (inputs: seq<Link>)
    ensures inputs == FfnLinks(cs, node)
  {
    inputs := [];
    var i := 0;
    while i < |cs|
      invariant 0 <= i <= |cs|
      invariant inputs == FfnLinks(cs[..i], node)
    {
      var c := cs[i];
      assert cs[..i + 1][..i] == cs[..i] && cs[..i + 1][i] == c;
      if c.enabled && c.tgt == node {
        inputs := inputs + [Link(c.src, c.weight, Some(Coeffs(c.a, c.b, c.c, c.d)))];
      }
      i := i + 1;
    }
    assert cs[..i] == cs;
  }

  /** The feed-forward `create`: layer by layer, node by node, gather the enabled
      connections into the node and build its record. */
  method CompileFeedForward(g: Genome, layers: seq<seq<Key>>, tables: Tables) returns (r: Result<seq<NodeEval>>)
    ensures r == Build(g, tables, Flatten(layers), FeedForward, false)
  {
    var cs := g.connections;
    var records: seq<NodeEval> := [];
    var l := 0;
    while l < |layers|
      invariant 0 <= l <= |layers|
      invariant Build(g, tables, Flatten(layers[..l]), FeedForward, false) == Ok(records)
    {
      var layer := layers[l];
      assert Flatten(layers[..l]) + layer[..0] == Flatten(layers[..l]);
      var n := 0;
      while n < |layer|
        invariant 0 <= n <= |layer|
        invariant Build(g, tables, Flatten(layers[..l]) + layer[..n], FeedForward, false) == Ok(records)
      {
        var node := layer[n];
        var inputs := GatherFfnLinks(cs, node);
        LayerStep(g, tables, layers, l, n, records);
        if !Resolvable(g, tables, node) {
          return Err(Failure(g, tables, node));
        }
        records := records + [Record(g, tables, node, inputs, false)];
        n := n + 1;
      }
      assert layer[..n] == layer;
      assert layers[..l + 1][..l] == layers[..l] && layers[..l + 1][l] == layer;
      l := l + 1;
    }
    assert layers[..l] == layers;
    return Ok(records);
  }
}
