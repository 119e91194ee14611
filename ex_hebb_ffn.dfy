/** The feed-forward network with plain Hebbian plasticity
    (modneat/nn/ex_hebb_ffn.py): one value map, records evaluated in compiled order
    against the live map, then the plasticity pass on the final values. */
module ExHebbFfn {
  import opened Records
  import opened WeightUpdate
  import opened Compile

  /** The map after the node sweep, and the error that stopped it, if any. */
  datatype Sweep = Sweep(values: map<Key, real>, fault: Option<Error>)

  /** The first source, in link order, that has no value in m: the key whose lookup
      raises while a node's inputs are gathered. */
  function FirstMissing(links: seq<Link>, m: map<Key, real>): (r: Option<Key>)
    decreases |links|
    ensures r.None? <==> forall j :: 0 <= j < |links| ==> links[j].src in m
    ensures r.Some? ==> (r.value !in m &&
      exists j :: (0 <= j < |links| && links[j].src == r.value && forall q :: 0 <= q < j ==> links[q].src in m))
  {
    if links == [] then None
    else if links[0].src !in m then
      assert links[0].src == links[0].src;
      Some(links[0].src)
    else
      var rest := FirstMissing(links[1..], m);
      assert forall j :: 0 <= j < |links[1..]| ==> links[1..][j] == links[j + 1];
      if rest.Some? then
        var j :| 0 <= j < |links[1..]| && links[1..][j].src == rest.value && forall q :: 0 <= q < j ==> links[1..][q].src in m;
        assert links[j + 1].src == rest.value && forall q :: 0 <= q < j + 1 ==> links[q].src in m;
        rest
      else rest
  }

  /** The node loop of `activate`: each record in order reads its sources from the
      live map and stores its value there, so later records see earlier ones; a
      missing source stops the sweep with the map as it stands. */
  function FfnSweep(evals: seq<NodeEval>, m: map<Key, real>): Sweep
    decreases |evals|
  {
    if evals == [] then Sweep(m, None)
    else match FirstMissing(evals[0].links, m)
      case Some(k) => Sweep(m, Some(MissingValue(k)))
      case None => FfnSweep(evals[1..], m[evals[0].node := NodeValue(evals[0], m)])
  }

  /** Every source a record reads is among the starting keys or is an earlier
      record's node: the order the layering of `create` is meant to produce. */
  ghost predicate Ordered(evals: seq<NodeEval>, keys: set<Key>)
  {
    forall k, j :: 0 <= k < |evals| && 0 <= j < |evals[k].links| ==>
      evals[k].links[j].src in keys + Nodes(evals[..k])
  }

  lemma OrderedCons(evals: seq<NodeEval>, keys: set<Key>)
    requires evals != []
    ensures Ordered(evals, keys) <==>
      (forall j :: 0 <= j < |evals[0].links| ==> evals[0].links[j].src in keys) &&
      Ordered(evals[1..], keys + {evals[0].node})
  {
    forall k | 0 < k <= |evals|
      ensures keys + Nodes(evals[..k]) == keys + {evals[0].node} + Nodes(evals[1..][..k - 1])
    {
      assert evals[..k][0] == evals[0] && evals[..k][1..] == evals[1..][..k - 1];
      NodesCons(evals[..k]);
    }
    assert evals[..0] == [];
    forall k | 0 <= k < |evals[1..]| ensures evals[1..][k] == evals[k + 1] {}
  }

  /** The sweep completes exactly when the records are ordered with respect to the
      keys the map starts with. */
  lemma {:induction false} SweepFaultFree(evals: seq<NodeEval>, m: map<Key, real>)
    ensures FfnSweep(evals, m).fault.None? <==> Ordered(evals, m.Keys)
    decreases |evals|
  {
    if evals != [] {
      OrderedCons(evals, m.Keys);
      var m1 := m[evals[0].node := NodeValue(evals[0], m)];
      SweepFaultFree(evals[1..], m1);
      assert m1.Keys == m.Keys + {evals[0].node};
    }
  }

  /** A completed sweep has added exactly the record nodes to the map and left every
      other key's value alone. */
  lemma {:induction false} SweepKeys(evals: seq<NodeEval>, m: map<Key, real>)
    requires FfnSweep(evals, m).fault.None?
    ensures FfnSweep(evals, m).values.Keys == m.Keys + Nodes(evals)
    ensures forall x :: x in m && x !in Nodes(evals) ==> FfnSweep(evals, m).values[x] == m[x]
    decreases |evals|
  {
    if evals != [] {
      NodesCons(evals);
      SweepKeys(evals[1..], m[evals[0].node := NodeValue(evals[0], m)]);
    }
  }

  /** A later node sees values written earlier in the same call: record k's final
      value is computed from the map as the first k records left it. */
  lemma {:induction false} SweepAt(evals: seq<NodeEval>, m: map<Key, real>, k: nat)
    requires DistinctNodes(evals) && k < |evals| && FfnSweep(evals, m).fault.None?
    ensures evals[k].node in FfnSweep(evals, m).values
    ensures FfnSweep(evals, m).values[evals[k].node] == NodeValue(evals[k], FfnSweep(evals[..k], m).values)
    decreases |evals|
  {
    var m1 := m[evals[0].node := NodeValue(evals[0], m)];
    DistinctTail(evals);
    SweepKeys(evals[1..], m1);
    if k == 0 {
      assert evals[..0] == [];
    } else {
      assert evals[1..][k - 1] == evals[k];
      SweepAt(evals[1..], m1, k - 1);
      assert evals[..k][0] == evals[0] && evals[..k][1..] == evals[1..][..k - 1];
    }
  }

  /** The records `create` builds from a layering in which every enabled connection
      into a node comes from an input or from a node placed earlier. */
  ghost predicate Layered(inputs: seq<Key>, order: seq<Key>, cs: seq<ConnGene>)
  {
    forall k, i :: 0 <= k < |order| && 0 <= i < |cs| && cs[i].enabled && cs[i].tgt == order[k] ==>
      cs[i].src in Elems(inputs) + Elems(order[..k])
  }

  /** Records compiled from such a layering never read a missing value: starting from
      any map holding the inputs, the sweep completes. */
  lemma LayeredSweepFaultFree(g: Genome, tables: Tables, inputs: seq<Key>, layers: seq<seq<Key>>, m: map<Key, real>)
    requires Layered(inputs, Flatten(layers), g.connections)
    requires Build(g, tables, Flatten(layers), FeedForward, false).Ok?
    requires Elems(inputs) <= m.Keys
    ensures FfnSweep(Build(g, tables, Flatten(layers), FeedForward, false).value, m).fault.None?
  {
    var order := Flatten(layers);
    BuildSpec(g, tables, order, FeedForward, false);
    var rs := Build(g, tables, order, FeedForward, false).value;
    forall k, j | 0 <= k < |rs| && 0 <= j < |rs[k].links| ensures rs[k].links[j].src in m.Keys + Nodes(rs[..k]) {
      FfnLinksExact(g.connections, order[k]);
      assert rs[k].links[j] in FfnLinks(g.connections, order[k]);
      var i :| 0 <= i < |g.connections| && g.connections[i].enabled && g.connections[i].tgt == order[k] &&
        rs[k].links[j] == Link(g.connections[i].src, g.connections[i].weight,
          Some(Coeffs(g.connections[i].a, g.connections[i].b, g.connections[i].c, g.connections[i].d)));
      var src := g.connections[i].src;
      if src !in Elems(inputs) {
        assert src in Elems(order[..k]);
        var q :| 0 <= q < k && order[q] == src;
        assert rs[..k][q].node == src;
      }
    }
    SweepFaultFree(rs, m);
  }

  class ExHebbFFN {
    const inputNodes: seq<Key>
    const outputNodes: seq<Key>
    /** The compiled records; their weights change on every call. */
    var nodeEvals: seq<NodeEval>
    /** Node values; starts with the inputs and outputs and gains the other nodes
        on the first call. */
    var values: map<Key, real>
    const globalParams: Params

    ghost predicate Valid()
      reads this
    {
      Elems(inputNodes) + Elems(outputNodes) <= values.Keys
    }

    /** The map starts with 0.0 at every input and output key. */
    constructor (inputs: seq<Key>, outputs: seq<Key>, evals: seq<NodeEval>, params: Params)
      ensures Valid()
      ensures inputNodes == inputs && outputNodes == outputs && globalParams == params
      ensures nodeEvals == evals && values == ZeroMap(Elems(inputs) + Elems(outputs))
    {
      inputNodes, outputNodes, nodeEvals, globalParams := inputs, outputs, evals, params;
      values := map k | k in Elems(inputs) + Elems(outputs) :: 0.0;
    }

    /** Builds the network from a genome: records in layer order, 6-field links,
        the genome's global parameters. */
    static method Create(g: Genome, inputKeys: seq<Key>, outputKeys: seq<Key>, layers: seq<seq<Key>>, tables: Tables)
      returns (r: Result<ExHebbFFN>)
      ensures var b := Build(g, tables, Flatten(layers), FeedForward, false);
        (r.Ok? <==> b.Ok?) && (r.Err? ==> r.error == b.error) &&
        (r.Ok? ==> (fresh(r.value) && r.value.Valid() && r.value.nodeEvals == b.value &&
          r.value.inputNodes == inputKeys && r.value.outputNodes == outputKeys && r.value.globalParams == g.params &&
          r.value.values == ZeroMap(Elems(inputKeys) + Elems(outputKeys))))
    {
      var records := CompileFeedForward(g, layers, tables);
      if records.Err? {
        return Err(records.error);
      }
      var net := new ExHebbFFN(inputKeys, outputKeys, records.value, g.params);
      return Ok(net);
    }

    /** `weight_change` of the feed-forward network: every link from `inputNode` in
        a record keyed `outputNode` gains `value`; its a, b, c, d and everything else
        stay as they were. Records without links are allowed here. */
    method WeightChange(inputNode: Key, outputNode: Key, value: real)
      modifies this
      ensures nodeEvals == WeightChanged(old(nodeEvals), inputNode, outputNode, value)
      ensures values == old(values)
    {
      ghost var start := nodeEvals;
      ghost var target := WeightChanged(start, inputNode, outputNode, value);
      var k := 0;
      while k < |nodeEvals|
        invariant 0 <= k <= |nodeEvals| == |start| == |target|
        invariant forall q :: 0 <= q < k ==> nodeEvals[q] == target[q]
        invariant forall q :: k <= q < |nodeEvals| ==> nodeEvals[q] == start[q]
        invariant values == old(values)
      {
        var j := 0;
        while j < |nodeEvals[k].links|
          invariant |nodeEvals| == |start|
          invariant 0 <= j <= |nodeEvals[k].links| == |start[k].links|
          invariant nodeEvals[k] == start[k].(links := nodeEvals[k].links)
          invariant forall q :: 0 <= q < j ==> nodeEvals[k].links[q] == target[k].links[q]
          invariant forall q :: j <= q < |nodeEvals[k].links| ==> nodeEvals[k].links[q] == start[k].links[q]
          invariant forall q :: 0 <= q < k ==> nodeEvals[q] == target[q]
          invariant forall q :: k < q < |nodeEvals| ==> nodeEvals[q] == start[q]
          invariant values == old(values)
        {
          WeightChangedLink(start, inputNode, outputNode, value, k, j);
          var rec := nodeEvals[k];
          if inputNode == rec.links[j].src && outputNode == rec.node {
            var link := rec.links[j];
            nodeEvals := nodeEvals[k := rec.(links := rec.links[j := link.(weight := link.weight + value)])];
          }
          j := j + 1;
        }
        assert nodeEvals[k] == target[k] by {
          if |start[k].links| > 0 {
            WeightChangedLink(start, inputNode, outputNode, value, k, 0);
          }
          assert nodeEvals[k].links == target[k].links;
        }
        k := k + 1;
      }
      assert nodeEvals == target;
    }

    /** One pass. On an input-count mismatch nothing changes. Otherwise the inputs
        overwrite the map; the records are evaluated in order against the live map
        (a missing source stops the call with the map as it stands); then every
        link's weight grows by eta * (a*x*y + b*x + c*y + d) with the global
        parameters and x, y the source's and the node's final values; the outputs
        are read from the map. */
    method Activate(inputs: seq<real>) returns (r: Result<seq<real>>)
      requires Valid()
      modifies this
      ensures Valid()
      ensures |inputs| != |inputNodes| ==>
        r == Err(InputArity(|inputNodes|, |inputs|)) && values == old(values) && nodeEvals == old(nodeEvals)
      ensures |inputs| == |inputNodes| ==>
        var sw := FfnSweep(old(nodeEvals), WithInputs(old(values), inputNodes, inputs));
        values == sw.values &&
        (sw.fault.Some? ==> r == Err(sw.fault.value) && nodeEvals == old(nodeEvals)) &&
        (sw.fault.None? ==>
          nodeEvals == Plasticity(old(nodeEvals), Plain(globalParams, sw.values, sw.values)) &&
          r == Ok(Select(sw.values, outputNodes)))
    {
      if |inputNodes| != |inputs| {
        return Err(InputArity(|inputNodes|, |inputs|));
      }
      ghost var written := WithInputs(values, inputNodes, inputs);
      WithInputsKeys(values, inputNodes, inputs);
      var i := 0;
      while i < |inputs|
        invariant 0 <= i <= |inputs|
        invariant WithInputs(values, inputNodes[i..], inputs[i..]) == written
        invariant Elems(inputNodes) + Elems(outputNodes) <= values.Keys
        invariant nodeEvals == old(nodeEvals)
      {
        assert inputNodes[i..][1..] == inputNodes[i + 1..] && inputs[i..][1..] == inputs[i + 1..];
        values := values[inputNodes[i] := inputs[i]];
        i := i + 1;
      }

      var fault := Evaluate();
      if fault.Some? {
        return Err(fault.value);
      }
      SweepFaultFree(old(nodeEvals), written);
      SweepKeys(old(nodeEvals), written);
      forall k, j | 0 <= k < |nodeEvals| && 0 <= j < |nodeEvals[k].links|
        ensures nodeEvals[k].links[j].src in values && nodeEvals[k].node in values
      {
        ReadsPresent(nodeEvals, written, k, j);
      }
      Learn();
      return Ok(Select(values, outputNodes));
    }

    /** The node loop of `activate`: each record in order gathers its weighted
        inputs from the live map and stores its value there; a missing source
        stops the loop. The records do not change. */
    method Evaluate() returns (fault: Option<Error>)
      requires Valid()
      modifies this
      ensures Valid()
      ensures values == FfnSweep(old(nodeEvals), old(values)).values
      ensures fault == FfnSweep(old(nodeEvals), old(values)).fault
      ensures nodeEvals == old(nodeEvals)
    {
      ghost var swept := FfnSweep(nodeEvals, values);
      var m := values;
      var evals := nodeEvals;
      var k := 0;
      while k < |evals|
        invariant 0 <= k <= |evals|
        invariant FfnSweep(evals[k..], m) == swept
        invariant Elems(inputNodes) + Elems(outputNodes) <= m.Keys
        invariant nodeEvals == old(nodeEvals) == evals
      {
        var rec := evals[k];
        assert evals[k..][0] == rec && evals[k..][1..] == evals[k + 1..];
        var nodeInputs: seq<real> := [];
        var j := 0;
        while j < |rec.links|
          invariant 0 <= j <= |rec.links|
          invariant nodeInputs == Weighted(rec.links[..j], m)
          invariant forall q :: 0 <= q < j ==> rec.links[q].src in m
          invariant nodeEvals == old(nodeEvals)
        {
          var link := rec.links[j];
          if link.src !in m {
            FirstMissingAt(rec.links, m, j);
            values := m;
            return Some(MissingValue(link.src));
          }
          assert rec.links[..j + 1] == rec.links[..j] + [link];
          WeightedSnoc(rec.links[..j], link, m);
          nodeInputs := nodeInputs + [Input(m, link)];
          j := j + 1;
        }
        assert rec.links[..j] == rec.links;
        var s := rec.agg(nodeInputs);
        m := m[rec.node := Fire(rec, s)];
        k := k + 1;
      }
      values := m;
      return None;
    }

    /** The plasticity loop of `activate`: for every record and link in order, the
        four-term amount on the final values is handed to WeightChange. */
    method Learn()
      requires forall k, j :: 0 <= k < |nodeEvals| && 0 <= j < |nodeEvals[k].links| ==>
        nodeEvals[k].links[j].src in values && nodeEvals[k].node in values
      modifies this
      ensures nodeEvals == Plasticity(old(nodeEvals), Plain(globalParams, values, values))
      ensures values == old(values)
    {
      ghost var rule := Plain(globalParams, values, values);
      ghost var target := Plasticity(nodeEvals, rule);
      var snap := nodeEvals;
      var k := 0;
      while k < |snap|
        invariant 0 <= k <= |snap|
        invariant Fold(nodeEvals, Pairs(snap[k..]), rule) == target
        invariant values == old(values)
      {
        var rec := snap[k];
        assert snap[k..][1..] == snap[k + 1..];
        assert RecordPairs(rec)[0..] == RecordPairs(rec);
        var j := 0;
        while j < |rec.links|
          invariant 0 <= j <= |rec.links|
          invariant Fold(nodeEvals, RecordPairs(rec)[j..] + Pairs(snap[k + 1..]), rule) == target
          invariant values == old(values)
        {
          var src := rec.links[j].src;
          var update := Hebbian(globalParams, values[src], values[rec.node]);
          assert update == Delta(rule, src, rec.node);
          assert (RecordPairs(rec)[j..] + Pairs(snap[k + 1..]))[1..] == RecordPairs(rec)[j + 1..] + Pairs(snap[k + 1..]);
          WeightChange(src, rec.node, update);
          j := j + 1;
        }
        assert RecordPairs(rec)[j..] + Pairs(snap[k + 1..]) == Pairs(snap[k + 1..]);
        k := k + 1;
      }
    }
  }

  /** A source that fails the lookup after all earlier ones succeeded is the first
      missing one. */
  lemma {:induction false} FirstMissingAt(links: seq<Link>, m: map<Key, real>, j: nat)
    requires j < |links| && links[j].src !in m
    requires forall q :: 0 <= q < j ==> links[q].src in m
    ensures FirstMissing(links, m) == Some(links[j].src)
    decreases j
  {
    if j > 0 {
      assert links[1..][j - 1] == links[j];
      FirstMissingAt(links[1..], m, j - 1);
    }
  }

  /** After a completed sweep every link source and every node has a value, so the
      plasticity pass reads nothing missing. */
  lemma ReadsPresent(evals: seq<NodeEval>, m: map<Key, real>, k: nat, j: nat)
    requires FfnSweep(evals, m).fault.None? && k < |evals| && j < |evals[k].links|
    ensures evals[k].links[j].src in FfnSweep(evals, m).values
    ensures evals[k].node in FfnSweep(evals, m).values
  {
    SweepFaultFree(evals, m);
    SweepKeys(evals, m);
    assert evals[k].node in Nodes(evals);
    forall x | x in Nodes(evals[..k]) ensures x in Nodes(evals) {
      var q :| 0 <= q < k && evals[..k][q].node == x;
      assert evals[q].node == x;
    }
  }
}
