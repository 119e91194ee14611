/** The simple recurrent network with plain Hebbian plasticity
    (modneat/nn/ex_hebb_rnn.py): two value buffers used in turn, every node read
    from the buffer the previous call wrote. */
module ExHebbRnn {
  import opened Records
  import opened WeightUpdate
  import opened Compile

  /** The buffer `ovalues` after the node loop: each record, in order, stores the
      value it computes from `ivalues` alone. */
  function Forward(evals: seq<NodeEval>, iv: map<Key, real>, ov: map<Key, real>): map<Key, real>
    decreases |evals|
  {
    if evals == [] then ov
    else Forward(evals[1..], iv, ov[evals[0].node := NodeValue(evals[0], iv)])
  }

  /** The buffer gains exactly the record nodes as keys, and a key that is no
      record's node keeps its value. */
  lemma {:induction false} ForwardOther(evals: seq<NodeEval>, iv: map<Key, real>, ov: map<Key, real>)
    ensures Forward(evals, iv, ov).Keys == ov.Keys + Nodes(evals)
    ensures forall x :: x in ov && x !in Nodes(evals) ==> Forward(evals, iv, ov)[x] == ov[x]
    decreases |evals|
  {
    if evals != [] {
      var ov1 := ov[evals[0].node := NodeValue(evals[0], iv)];
      ForwardOther(evals[1..], iv, ov1);
      NodesCons(evals);
    }
  }

  /** With distinct record nodes, each node's new value is computed from the previous
      buffer alone: it is `NodeValue(evals[k], iv)`. */
  lemma {:induction false} ForwardAt(evals: seq<NodeEval>, iv: map<Key, real>, ov: map<Key, real>, k: nat)
    requires DistinctNodes(evals) && k < |evals|
    ensures evals[k].node in Forward(evals, iv, ov)
    ensures Forward(evals, iv, ov)[evals[k].node] == NodeValue(evals[k], iv)
    decreases |evals|
  {
    var ov1 := ov[evals[0].node := NodeValue(evals[0], iv)];
    ForwardOther(evals[1..], iv, ov1);
    if k == 0 {
      assert evals[0].node !in Nodes(evals[1..]) by {
        forall q | 0 <= q < |evals[1..]| ensures evals[1..][q].node != evals[0].node {
          assert evals[1..][q] == evals[q + 1];
        }
      }
    } else {
      assert DistinctNodes(evals[1..]) by {
        forall a, b | 0 <= a < b < |evals[1..]| ensures evals[1..][a].node != evals[1..][b].node {
          assert evals[1..][a] == evals[a + 1] && evals[1..][b] == evals[b + 1];
        }
      }
      assert evals[1..][k - 1] == evals[k];
      ForwardAt(evals[1..], iv, ov1, k - 1);
    }
  }

  /** The node loop: each record, in order, computes its value from `iv` and
      stores it in `ov`. */
  method RunForward(evals: seq<NodeEval>, iv: map<Key, real>, ov: map<Key, real>) returns (r: map<Key, real>)
    ensures r == Forward(evals, iv, ov)
  {
    r := ov;
    var k := 0;
    while k < |evals|
      invariant 0 <= k <= |evals|
      invariant Forward(evals[k..], iv, r) == Forward(evals, iv, ov)
    {
      var rec := evals[k];
      assert evals[k..][1..] == evals[k + 1..];
      var nodeInputs := Weighted(rec.links, iv);
      var s := rec.agg(nodeInputs);
      r := r[rec.node := Fire(rec, s)];
      k := k + 1;
    }
  }

  /** A reordering `e2[i] == e1[perm[i]]` by a permutation `perm` of the indices. */
  ghost predicate Reordering(e1: seq<NodeEval>, e2: seq<NodeEval>, perm: seq<nat>)
  {
    |e1| == |e2| == |perm| && Distinct(perm) &&
    (forall i :: 0 <= i < |perm| ==> perm[i] < |e1| && e2[i] == e1[perm[i]]) &&
    (forall k :: 0 <= k < |e1| ==> k in perm)
  }

  lemma ReorderingNodes(e1: seq<NodeEval>, e2: seq<NodeEval>, perm: seq<nat>)
    requires DistinctNodes(e1) && Reordering(e1, e2, perm)
    ensures DistinctNodes(e2) && Nodes(e1) == Nodes(e2)
  {
    forall a, b | 0 <= a < b < |e2| ensures e2[a].node != e2[b].node {
      assert perm[a] != perm[b];
    }
    forall x | x in Nodes(e1) ensures x in Nodes(e2) {
      var k :| 0 <= k < |e1| && e1[k].node == x;
      assert k in perm;
      var i :| 0 <= i < |perm| && perm[i] == k;
      assert e2[i].node == x;
    }
    forall x | x in Nodes(e2) ensures x in Nodes(e1) {
      var i :| 0 <= i < |e2| && e2[i].node == x;
      assert e1[perm[i]].node == x;
    }
  }

  /** Because every node reads only the previous buffer, the records' order does not
      matter: any reordering of records with distinct nodes writes the same buffer. */
  lemma ForwardOrderFree(e1: seq<NodeEval>, e2: seq<NodeEval>, perm: seq<nat>, iv: map<Key, real>, ov: map<Key, real>)
    requires DistinctNodes(e1) && Reordering(e1, e2, perm)
    ensures Forward(e1, iv, ov) == Forward(e2, iv, ov)
  {
    ReorderingNodes(e1, e2, perm);
    var f1, f2 := Forward(e1, iv, ov), Forward(e2, iv, ov);
    ForwardOther(e1, iv, ov);
    ForwardOther(e2, iv, ov);
    forall x | x in f1 ensures f1[x] == f2[x] {
      if x in Nodes(e1) {
        var k :| 0 <= k < |e1| && e1[k].node == x;
        assert k in perm;
        var i :| 0 <= i < |perm| && perm[i] == k;
        ForwardAt(e1, iv, ov, k);
        ForwardAt(e2, iv, ov, i);
      }
    }
    assert f1.Keys == f2.Keys;
  }

  class ExHebbRNN {
    const inputNodes: seq<Key>
    const outputNodes: seq<Key>
    /** The compiled records; their weights change on every call. */
    var nodeEvals: seq<NodeEval>
    /** The snapshot taken at construction, restored by Reset. */
    const originalNodeEvals: seq<NodeEval>
    const globalParams: Params
    /** The two value buffers. */
    var values: seq<map<Key, real>>
    /** Index of the buffer the next call reads from. */
    var active: nat

    /** The keys of both buffers: inputs, outputs, record nodes and link sources. */
    ghost function Keys(): set<Key>
    {
      AllKeys(inputNodes, outputNodes, originalNodeEvals)
    }

    ghost predicate Valid()
      reads this
    {
      |values| == 2 && active <= 1 &&
      values[0].Keys == Keys() && values[1].Keys == Keys() &&
      SameShape(nodeEvals, originalNodeEvals) && LinksPresent(originalNodeEvals)
    }

    /** Both buffers hold 0.0 at every input, output, record node and link source;
        the records are snapshotted; `active` starts at 0. */
    constructor (inputs: seq<Key>, outputs: seq<Key>, evals: seq<NodeEval>, params: Params)
      requires LinksPresent(evals)
      ensures Valid()
      ensures inputNodes == inputs && outputNodes == outputs && globalParams == params
      ensures nodeEvals == evals && originalNodeEvals == evals
      ensures values == [ZeroMap(Keys()), ZeroMap(Keys())] && active == 0
    {
      inputNodes, outputNodes, globalParams := inputs, outputs, params;
      nodeEvals, originalNodeEvals := evals, evals;
      var v := ZeroBuffer(inputs, outputs, evals);
      values := [v, v];
      active := 0;
    }

    /** Builds the network from a genome: one record per target of a kept
        connection, in order of first appearance, with (source, weight) links. */
    static method Create(g: Genome, inputKeys: seq<Key>, outputKeys: seq<Key>, required: set<Key>, tables: Tables)
      returns (r: Result<ExHebbRNN>)
      ensures var b := Build(g, tables, Targets(g.connections, required), Recurrent(required), false);
        (r.Ok? <==> b.Ok?) && (r.Err? ==> r.error == b.error) &&
        (r.Ok? ==> (fresh(r.value) && r.value.Valid() &&
          r.value.nodeEvals == b.value && r.value.originalNodeEvals == b.value &&
          r.value.inputNodes == inputKeys && r.value.outputNodes == outputKeys && r.value.globalParams == g.params &&
          r.value.values == [ZeroMap(r.value.Keys()), ZeroMap(r.value.Keys())] && r.value.active == 0))
    {
      var records := CompileRecurrent(g, required, tables, false);
      if records.Err? {
        return Err(records.error);
      }
      RecurrentWellFormed(g, required, tables, false);
      var net := new ExHebbRNN(inputKeys, outputKeys, records.value, g.params);
      return Ok(net);
    }

    /** Restores the snapshot of the records, zeroes both buffers (keeping their keys)
        and sets `active` to 0. The new state depends on the constants alone, so a
        second reset changes nothing. */
    method Reset()
      requires Valid()
      modifies this
      ensures Valid()
      ensures nodeEvals == originalNodeEvals && active == 0
      ensures values == [Zeroed(old(values)[0]), Zeroed(old(values)[1])]
      ensures values == [ZeroMap(Keys()), ZeroMap(Keys())]
    {
      nodeEvals := originalNodeEvals;
      values := [Zeroed(values[0]), Zeroed(values[1])];
      active := 0;
    }

    /** One time step. On an input-count mismatch nothing changes. Otherwise the
        buffer index flips; the inputs are written into both buffers; every node is
        computed from the previous buffer into the other one; every link's weight
        then grows by eta * (a*x*y + b*x + c*y + d) with x the source's previous
        value and y the node's new value; the outputs are read from the new buffer. */
    method Activate(inputs: seq<real>) returns (r: Result<seq<real>>)
      requires Valid()
      modifies this
      ensures Valid()
      ensures |inputs| != |inputNodes| ==>
        r == Err(InputArity(|inputNodes|, |inputs|)) &&
        values == old(values) && active == old(active) && nodeEvals == old(nodeEvals)
      ensures |inputs| == |inputNodes| ==>
        var iv := WithInputs(old(values)[old(active)], inputNodes, inputs);
        var ov := Forward(old(nodeEvals), iv, WithInputs(old(values)[1 - old(active)], inputNodes, inputs));
        active == 1 - old(active) &&
        values[old(active)] == iv && values[active] == ov &&
        nodeEvals == Plasticity(old(nodeEvals), Plain(globalParams, iv, ov)) &&
        r == Ok(Select(ov, outputNodes))
    {
      if |inputNodes| != |inputs| {
        return Err(InputArity(|inputNodes|, |inputs|));
      }
      var was := active;
      var iv := values[was];
      var ov := values[1 - was];
      active := 1 - active;

      WithInputsKeys(iv, inputNodes, inputs);
      WithInputsKeys(ov, inputNodes, inputs);
      iv, ov := WriteInputs(iv, ov, inputNodes, inputs);

      ForwardOther(nodeEvals, iv, ov);
      ov := RunForward(nodeEvals, iv, ov);
      NodesInKeys(nodeEvals, originalNodeEvals);
      ShapeLinksPresent(nodeEvals, originalNodeEvals);
      var learned := PlasticityPass(nodeEvals, Plain(globalParams, iv, ov));
      PlasticityShape(nodeEvals, Plain(globalParams, iv, ov));
      SameShapeTrans(learned, nodeEvals, originalNodeEvals);
      nodeEvals := learned;
      values := values[was := iv][1 - was := ov];
      return Ok(Select(ov, outputNodes));
    }
  }
}
