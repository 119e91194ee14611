/** The recurrent network with neuromodulated plasticity
    (modneat/nn/mod_recurrent.py): the two-buffer scheme of the plain recurrent
    network, a split of every activation into a standard output and a modulatory
    signal, and a Hebbian update gated by tanh of each node's modulated value. */
module ModRecurrentNet {
  import opened Records
  import opened WeightUpdate
  import opened Compile

  /** How an activation is divided between the standard output and the signal. */
  datatype Mode = BoolMode | FloatMode

  /** The modes the network accepts, by name. */
  function ParseMode(name: string): (m: Option<Mode>)
    ensures m == Some(BoolMode) <==> name == "bool"
    ensures m == Some(FloatMode) <==> name == "float"
  {
    if name == "bool" then Some(BoolMode)
    else if name == "float" then Some(FloatMode)
    else None
  }

  /** A record's modulatory ratio; every record of this network carries one. */
  function Ratio(r: NodeEval): real
  {
    if r.modulatory.Some? then r.modulatory.value else 0.0
  }

  ghost predicate Modulatory(evals: seq<NodeEval>)
  {
    forall k :: 0 <= k < |evals| ==> evals[k].modulatory.Some?
  }

  /** The (standard output, modulatory signal) pair of activation a. Either way the
      two parts add up to the activation. */
  function Split(mode: Mode, ratio: real, a: real): (r: (real, real))
    ensures r.0 + r.1 == a
  {
    match mode
    case BoolMode => if ratio > 0.5 then (0.0, a) else (a, 0.0)
    case FloatMode => (a * (1.0 - ratio), a * ratio)
  }

  /** In bool mode a node is wholly modulatory above ratio 0.5 and wholly standard
      at or below it, so one of the two parts is always zero. */
  lemma BoolSplit(ratio: real, a: real)
    ensures ratio > 0.5 ==> Split(BoolMode, ratio, a) == (0.0, a)
    ensures ratio <= 0.5 ==> Split(BoolMode, ratio, a) == (a, 0.0)
    ensures Split(BoolMode, ratio, a).0 == 0.0 || Split(BoolMode, ratio, a).1 == 0.0
  {
  }

  /** In float mode ratio 0 is a purely standard node, ratio 1 a purely modulatory
      one, and the parts scale with the activation. */
  lemma FloatSplit(ratio: real, a: real)
    ensures ratio == 0.0 ==> Split(FloatMode, ratio, a) == (a, 0.0)
    ensures ratio == 1.0 ==> Split(FloatMode, ratio, a) == (0.0, a)
    ensures Split(FloatMode, ratio, a).1 == a * ratio
  {
    if ratio == 0.0 {
      assert a * (1.0 - ratio) == a && a * ratio == 0.0;
    }
    if ratio == 1.0 {
      assert a * (1.0 - ratio) == 0.0 && a * ratio == a;
    }
  }

  /** The outcome of the node loop: the standard-output buffer, the signal map,
      and the error that stopped the loop, if any. */
  datatype ModSweep = ModSweep(ov: map<Key, real>, mv: map<Key, real>, fault: Option<Error>)

  /** The node loop of `activate`: each record in order computes its activation
      from `iv`, checks its ratio lies in [0, 1], checks the mode, and writes the two
      parts; the first failed check stops the loop with the maps as they stand. */
  function Sweep(evals: seq<NodeEval>, iv: map<Key, real>, ov: map<Key, real>, mv: map<Key, real>, modeName: string): ModSweep
    decreases |evals|
  {
    if evals == [] then ModSweep(ov, mv, None)
    else
      var r := evals[0];
      if !(0.0 <= Ratio(r) <= 1.0) then ModSweep(ov, mv, Some(RatioOutOfRange(r.node, Ratio(r))))
      else if ParseMode(modeName).None? then ModSweep(ov, mv, Some(InvalidMode(modeName)))
      else
        var parts := Split(ParseMode(modeName).value, Ratio(r), NodeValue(r, iv));
        Sweep(evals[1..], iv, ov[r.node := parts.0], mv[r.node := parts.1], modeName)
  }

  /** The loop completes exactly when every ratio lies in [0, 1] and, if there is a
      record at all, the mode is "bool" or "float". */
  lemma {:induction false} SweepFaultFree(evals: seq<NodeEval>, iv: map<Key, real>, ov: map<Key, real>, mv: map<Key, real>, modeName: string)
    ensures Sweep(evals, iv, ov, mv, modeName).fault.None? <==>
      (forall k :: 0 <= k < |evals| ==> 0.0 <= Ratio(evals[k]) <= 1.0) &&
      (evals == [] || modeName == "bool" || modeName == "float")
    decreases |evals|
  {
    if evals != [] {
      var r := evals[0];
      if 0.0 <= Ratio(r) <= 1.0 && ParseMode(modeName).Some? {
        var parts := Split(ParseMode(modeName).value, Ratio(r), NodeValue(r, iv));
        SweepFaultFree(evals[1..], iv, ov[r.node := parts.0], mv[r.node := parts.1], modeName);
        assert forall k :: 0 < k < |evals| ==> evals[1..][k - 1] == evals[k];
      }
    }
  }

  /** A completed loop writes only record nodes, in both maps. */
  lemma {:induction false} SweepOther(evals: seq<NodeEval>, iv: map<Key, real>, ov: map<Key, real>, mv: map<Key, real>, modeName: string)
    ensures var s := Sweep(evals, iv, ov, mv, modeName);
      s.fault.None? ==> (s.ov.Keys == ov.Keys + Nodes(evals) && s.mv.Keys == mv.Keys + Nodes(evals) &&
        (forall x :: x in ov && x !in Nodes(evals) ==> s.ov[x] == ov[x]) &&
        (forall x :: x in mv && x !in Nodes(evals) ==> s.mv[x] == mv[x]))
    decreases |evals|
  {
    if evals != [] {
      var r := evals[0];
      if 0.0 <= Ratio(r) <= 1.0 && ParseMode(modeName).Some? {
        var parts := Split(ParseMode(modeName).value, Ratio(r), NodeValue(r, iv));
        SweepOther(evals[1..], iv, ov[r.node := parts.0], mv[r.node := parts.1], modeName);
        NodesCons(evals);
      }
    }
  }

  /** A failed loop has written only record nodes into maps that already hold them:
      the key sets are those of a completed loop's maps. */
  lemma {:induction false} SweepKeys(evals: seq<NodeEval>, iv: map<Key, real>, ov: map<Key, real>, mv: map<Key, real>, modeName: string)
    requires Nodes(evals) <= ov.Keys && Nodes(evals) <= mv.Keys
    ensures Sweep(evals, iv, ov, mv, modeName).ov.Keys == ov.Keys
    ensures Sweep(evals, iv, ov, mv, modeName).mv.Keys == mv.Keys
    decreases |evals|
  {
    if evals != [] {
      var r := evals[0];
      NodesCons(evals);
      if 0.0 <= Ratio(r) <= 1.0 && ParseMode(modeName).Some? {
        var parts := Split(ParseMode(modeName).value, Ratio(r), NodeValue(r, iv));
        SweepKeys(evals[1..], iv, ov[r.node := parts.0], mv[r.node := parts.1], modeName);
      }
    }
  }

  /** After a completed loop, every node's standard output and signal are the split
      of the activation it computes from the previous buffer, so together they make
      up that activation. */
  lemma {:induction false} SweepAt(evals: seq<NodeEval>, iv: map<Key, real>, ov: map<Key, real>, mv: map<Key, real>, modeName: string, k: nat)
    requires DistinctNodes(evals) && k < |evals|
    requires Sweep(evals, iv, ov, mv, modeName).fault.None?
    ensures var s := Sweep(evals, iv, ov, mv, modeName);
      evals[k].node in s.ov && evals[k].node in s.mv &&
      (s.ov[evals[k].node], s.mv[evals[k].node]) ==
        Split(ParseMode(modeName).value, Ratio(evals[k]), NodeValue(evals[k], iv)) &&
      s.ov[evals[k].node] + s.mv[evals[k].node] == NodeValue(evals[k], iv)
    decreases |evals|
  {
    var r := evals[0];
    var parts := Split(ParseMode(modeName).value, Ratio(r), NodeValue(r, iv));
    var ov1, mv1 := ov[r.node := parts.0], mv[r.node := parts.1];
    DistinctTail(evals);
    SweepOther(evals[1..], iv, ov1, mv1, modeName);
    if k > 0 {
      assert evals[1..][k - 1] == evals[k];
      SweepAt(evals[1..], iv, ov1, mv1, modeName, k - 1);
    }
  }

  /** The loop as `activate` runs it, over the two maps it writes. */
  method RunSweep(evals: seq<NodeEval>, iv: map<Key, real>, ov: map<Key, real>, mv: map<Key, real>, modeName: string)
    returns (ov': map<Key, real>, mv': map<Key, real>, fault: Option<Error>)
    ensures ModSweep(ov', mv', fault) == Sweep(evals, iv, ov, mv, modeName)
  {
    ghost var target := Sweep(evals, iv, ov, mv, modeName);
    ov', mv' := ov, mv;
    var k := 0;
    while k < |evals|
      invariant 0 <= k <= |evals|
      invariant Sweep(evals[k..], iv, ov', mv', modeName) == target
    {
      var rec := evals[k];
      assert evals[k..][0] == rec && evals[k..][1..] == evals[k + 1..];
      var nodeInputs := Weighted(rec.links, iv);
      var s := rec.agg(nodeInputs);
      var ratio := Ratio(rec);
      if !(0.0 <= ratio && ratio <= 1.0) {
        return ov', mv', Some(RatioOutOfRange(rec.node, ratio));
      }
      assert Fire(rec, s) == NodeValue(rec, iv);
      var parts;
      if modeName == "bool" {
        parts := Split(BoolMode, ratio, Fire(rec, s));
      } else if modeName == "float" {
        parts := Split(FloatMode, ratio, Fire(rec, s));
      } else {
        return ov', mv', Some(InvalidMode(modeName));
      }
      ov' := ov'[rec.node := parts.0];
      mv' := mv'[rec.node := parts.1];
      k := k + 1;
    }
    return ov', mv', None;
  }

  // ---------------------------------------------------------------------------
  // Modulated values

  /** The incoming signal of a node: the sum over its links of the source's signal
      times the link's weight. */
  function Signal(links: seq<Link>, mv: map<Key, real>): real
    decreases |links|
  {
    if links == [] then 0.0 else Signal(links[..|links| - 1], mv) + Input(mv, links[|links| - 1])
  }

  /** A node whose sources all send no signal has modulated value m_d alone. */
  lemma {:induction false} SignalSilent(links: seq<Link>, mv: map<Key, real>)
    requires forall j :: 0 <= j < |links| ==> At(mv, links[j].src) == 0.0
    ensures Signal(links, mv) == 0.0
    decreases |links|
  {
    if links != [] {
      var init := links[..|links| - 1];
      assert forall j :: 0 <= j < |init| ==> init[j] == links[j];
      SignalSilent(init, mv);
    }
  }

  /** The modulated-value loop: every record in order sets its node's modulated
      value to m_d plus its incoming signal. */
  function Modulated(evals: seq<NodeEval>, mv: map<Key, real>, md: real, acc: map<Key, real>): map<Key, real>
    decreases |evals|
  {
    if evals == [] then acc
    else Modulated(evals[1..], mv, md, acc[evals[0].node := md + Signal(evals[0].links, mv)])
  }

  /** The loop writes exactly the record nodes. */
  lemma {:induction false} ModulatedOther(evals: seq<NodeEval>, mv: map<Key, real>, md: real, acc: map<Key, real>)
    ensures Modulated(evals, mv, md, acc).Keys == acc.Keys + Nodes(evals)
    ensures forall x :: x in acc && x !in Nodes(evals) ==> Modulated(evals, mv, md, acc)[x] == acc[x]
    decreases |evals|
  {
    if evals != [] {
      ModulatedOther(evals[1..], mv, md, acc[evals[0].node := md + Signal(evals[0].links, mv)]);
      NodesCons(evals);
    }
  }

  /** With distinct nodes, each node's modulated value is `md + Signal(links, mv)`
      over its own links, from this call's signals. */
  lemma {:induction false} ModulatedAt(evals: seq<NodeEval>, mv: map<Key, real>, md: real, acc: map<Key, real>, k: nat)
    requires DistinctNodes(evals) && k < |evals|
    ensures evals[k].node in Modulated(evals, mv, md, acc)
    ensures Modulated(evals, mv, md, acc)[evals[k].node] == md + Signal(evals[k].links, mv)
    decreases |evals|
  {
    var acc1 := acc[evals[0].node := md + Signal(evals[0].links, mv)];
    DistinctTail(evals);
    ModulatedOther(evals[1..], mv, md, acc1);
    if k > 0 {
      assert evals[1..][k - 1] == evals[k];
      ModulatedAt(evals[1..], mv, md, acc1, k - 1);
    }
  }

  /** The modulated-value loop as `activate` runs it. */
  method RunModulated(evals: seq<NodeEval>, mv: map<Key, real>, md: real, acc: map<Key, real>) returns (r: map<Key, real>)
    ensures r == Modulated(evals, mv, md, acc)
  {
    r := acc;
    var k := 0;
    while k < |evals|
      invariant 0 <= k <= |evals|
      invariant Modulated(evals[k..], mv, md, r) == Modulated(evals, mv, md, acc)
    {
      var rec := evals[k];
      assert evals[k..][0] == rec && evals[k..][1..] == evals[k + 1..];
      ghost var start := r;
      r := r[rec.node := md];
      var j := 0;
      while j < |rec.links|
        invariant 0 <= j <= |rec.links|
        invariant r == start[rec.node := md + Signal(rec.links[..j], mv)]
      {
        assert rec.links[..j + 1][..j] == rec.links[..j] && rec.links[..j + 1][j] == rec.links[j];
        r := r[rec.node := r[rec.node] + Input(mv, rec.links[j])];
        j := j + 1;
      }
      assert rec.links[..j] == rec.links;
      k := k + 1;
    }
  }

  /** The gated amount for link (s, t): tanh(modulated[t] / 2) times the four-term
      rule on x = iv[s] and y = ov[t]. */
  lemma GatedDelta(p: Params, iv: map<Key, real>, ov: map<Key, real>, md: map<Key, real>, tanh: real -> real, s: Key, t: Key)
    requires s in iv && t in ov && t in md
    ensures Delta(Gated(p, iv, ov, md, tanh), s, t) ==
      tanh(md[t] / 2.0) * (p.eta * (p.a * iv[s] * ov[t] + p.b * iv[s] + p.c * ov[t] + p.d))
  {
  }

  /** A gate of zero switches learning off: if every target's modulated value makes
      tanh vanish, the pass leaves all weights as they were. */
  lemma GateClosed(evals: seq<NodeEval>, p: Params, iv: map<Key, real>, ov: map<Key, real>, md: map<Key, real>, tanh: real -> real, k: nat, j: nat)
    requires forall q :: 0 <= q < |evals| ==> tanh(At(md, evals[q].node) / 2.0) == 0.0
    requires k < |evals| && j < |evals[k].links|
    ensures |Plasticity(evals, Gated(p, iv, ov, md, tanh))| == |evals|
    ensures |Plasticity(evals, Gated(p, iv, ov, md, tanh))[k].links| == |evals[k].links|
    ensures Plasticity(evals, Gated(p, iv, ov, md, tanh))[k].links[j].weight == evals[k].links[j].weight
  {
    var rule := Gated(p, iv, ov, md, tanh);
    var x := (evals[k].links[j].src, evals[k].node);
    PlasticityCount(evals, rule, k, j);
    assert Delta(rule, x.0, x.1) == 0.0;
    TimesZero(multiset(Pairs(evals))[x]);
  }

  lemma {:induction false} TimesZero(n: nat)
    ensures Times(n, 0.0) == 0.0
  {
    if n > 0 {
      TimesZero(n - 1);
    }
  }

  // ---------------------------------------------------------------------------
  // The network

  class ModRecurrent {
    const inputNodes: seq<Key>
    const outputNodes: seq<Key>
    /** The compiled records; their weights change on every call. */
    var nodeEvals: seq<NodeEval>
    /** The snapshot taken at construction, restored by Reset. */
    const originalNodeEvals: seq<NodeEval>
    const globalParams: Params
    /** "bool" or "float"; any other name fails the first node of every call. */
    const modulatoryMode: string
    /** "local", "global" or another scope name, checked by AssertType. */
    const evoparamMode: string
    const globalCoef: real
    const localCoef: real
    /** The hyperbolic tangent the gate applies. */
    const tanh: real -> real
    /** The two standard-output buffers. */
    var values: seq<map<Key, real>>
    /** Index of the buffer the next call reads from. */
    var active: nat
    /** The modulatory signal of every node. */
    var modulateValues: map<Key, real>
    /** The modulated value of every node. */
    var modulatedValues: map<Key, real>

    /** The keys of all four maps: inputs, outputs, record nodes and link sources. */
    ghost function Keys(): set<Key>
    {
      AllKeys(inputNodes, outputNodes, originalNodeEvals)
    }

    ghost predicate Valid()
      reads this
    {
      |values| == 2 && active <= 1 &&
      values[0].Keys == Keys() && values[1].Keys == Keys() &&
      modulateValues.Keys == Keys() && modulatedValues.Keys == Keys() &&
      SameShape(nodeEvals, originalNodeEvals) && LinksPresent(originalNodeEvals) && Modulatory(originalNodeEvals)
    }

    /** All four maps hold 0.0 at every input, output, record node and link source;
        the records are snapshotted; `active` starts at 0. */
    constructor (inputs: seq<Key>, outputs: seq<Key>, evals: seq<NodeEval>, params: Params,
                 modeName: string, scope: string, gCoef: real, lCoef: real, th: real -> real)
      requires LinksPresent(evals) && Modulatory(evals)
      ensures Valid()
      ensures inputNodes == inputs && outputNodes == outputs && globalParams == params
      ensures modulatoryMode == modeName && evoparamMode == scope && globalCoef == gCoef && localCoef == lCoef && tanh == th
      ensures nodeEvals == evals && originalNodeEvals == evals && active == 0
      ensures values == [ZeroMap(Keys()), ZeroMap(Keys())]
      ensures modulateValues == ZeroMap(Keys()) && modulatedValues == ZeroMap(Keys())
    {
      inputNodes, outputNodes, globalParams := inputs, outputs, params;
      modulatoryMode, evoparamMode, globalCoef, localCoef, tanh := modeName, scope, gCoef, lCoef, th;
      nodeEvals, originalNodeEvals := evals, evals;
      var v := ZeroBuffer(inputs, outputs, evals);
      values := [v, v];
      modulateValues := v;
      modulatedValues := v;
      active := 0;
    }

    /** Builds the network from a genome: one record per target of a kept
        connection, in order of first appearance, carrying the node's modulatory
        ratio and (source, weight) links. */
    static method Create(g: Genome, inputKeys: seq<Key>, outputKeys: seq<Key>, required: set<Key>, tables: Tables,
                         modeName: string, scope: string, gCoef: real, lCoef: real, th: real -> real)
      returns (r: Result<ModRecurrent>)
      ensures var b := Build(g, tables, Targets(g.connections, required), Recurrent(required), true);
        (r.Ok? <==> b.Ok?) && (r.Err? ==> r.error == b.error) &&
        (r.Ok? ==> (fresh(r.value) && r.value.Valid() &&
          r.value.nodeEvals == b.value && r.value.originalNodeEvals == b.value &&
          r.value.inputNodes == inputKeys && r.value.outputNodes == outputKeys && r.value.globalParams == g.params &&
          r.value.modulatoryMode == modeName && r.value.evoparamMode == scope &&
          r.value.globalCoef == gCoef && r.value.localCoef == lCoef && r.value.tanh == th &&
          r.value.values == [ZeroMap(r.value.Keys()), ZeroMap(r.value.Keys())] && r.value.active == 0 &&
          r.value.modulateValues == ZeroMap(r.value.Keys()) && r.value.modulatedValues == ZeroMap(r.value.Keys())))
    {
      var records := CompileRecurrent(g, required, tables, true);
      if records.Err? {
        return Err(records.error);
      }
      RecurrentWellFormed(g, required, tables, true);
      var net := new ModRecurrent(inputKeys, outputKeys, records.value, g.params, modeName, scope, gCoef, lCoef, th);
      return Ok(net);
    }

    /** The scope check: a "local" scope needs the global coefficient to be zero,
        a "global" scope the local one; any other scope passes. */
    method AssertType() returns (fault: Option<Error>)
      ensures fault.Some? <==> (evoparamMode == "local" && globalCoef != 0.0) || (evoparamMode == "global" && localCoef != 0.0)
      ensures fault.Some? ==> fault.value == ScopeMismatch(evoparamMode)
    {
      if evoparamMode == "local" {
        if globalCoef != 0.0 {
          return Some(ScopeMismatch(evoparamMode));
        }
      } else if evoparamMode == "global" {
        if localCoef != 0.0 {
          return Some(ScopeMismatch(evoparamMode));
        }
      }
      return None;
    }

    /** Restores the snapshot of the records, zeroes both buffers (keeping their
        keys), makes the signal and modulated maps zeroed copies of the first buffer,
        and sets `active` to 0. The new state depends on the constants alone. */
    method Reset()
      requires Valid()
      modifies this
      ensures Valid()
      ensures nodeEvals == originalNodeEvals && active == 0
      ensures values == [Zeroed(old(values)[0]), Zeroed(old(values)[1])]
      ensures modulateValues == values[0] && modulatedValues == values[0]
      ensures values == [ZeroMap(Keys()), ZeroMap(Keys())]
    {
      nodeEvals := originalNodeEvals;
      values := [Zeroed(values[0]), Zeroed(values[1])];
      modulateValues := values[0];
      modulatedValues := values[0];
      active := 0;
    }

    /** The last two loops of `activate`, once every node has its standard output
        in `ov` and its signal in `modulateValues`: the modulated values, then the
        gated plasticity pass. The buffers and signals stay as they are. */
    method Learn(iv: map<Key, real>, ov: map<Key, real>)
      requires Valid()
      modifies this
      ensures Valid()
      ensures values == old(values) && active == old(active) && modulateValues == old(modulateValues)
      ensures modulatedValues == Modulated(old(nodeEvals), modulateValues, globalParams.md, old(modulatedValues))
      ensures nodeEvals == Plasticity(old(nodeEvals), Gated(globalParams, iv, ov, modulatedValues, tanh))
    {
      NodesInKeys(nodeEvals, originalNodeEvals);
      ModulatedOther(nodeEvals, modulateValues, globalParams.md, modulatedValues);
      modulatedValues := RunModulated(nodeEvals, modulateValues, globalParams.md, modulatedValues);
      ShapeLinksPresent(nodeEvals, originalNodeEvals);
      var rule := Gated(globalParams, iv, ov, modulatedValues, tanh);
      var learned := PlasticityPass(nodeEvals, rule);
      PlasticityShape(nodeEvals, rule);
      SameShapeTrans(learned, nodeEvals, originalNodeEvals);
      nodeEvals := learned;
    }

    /** One time step. On an input-count mismatch nothing changes. Otherwise the
        buffer index flips and the inputs are written into both buffers; every node
        computes its activation from the previous buffer, has its ratio checked and
        splits the activation into standard output and signal (a failed check ends
        the call with the maps as they stand); every node's modulated value becomes
        m_d plus its incoming signal; every link's weight grows by
        tanh(modulated[node] / 2) * eta * (a*x*y + b*x + c*y + d); the outputs are
        read from the new buffer. */
    method Activate(inputs: seq<real>) returns (r: Result<seq<real>>)
      requires Valid()
      modifies this
      ensures Valid()
      ensures |inputs| != |inputNodes| ==>
        r == Err(InputArity(|inputNodes|, |inputs|)) &&
        values == old(values) && active == old(active) && nodeEvals == old(nodeEvals) &&
        modulateValues == old(modulateValues) && modulatedValues == old(modulatedValues)
      ensures |inputs| == |inputNodes| ==>
        var iv := WithInputs(old(values)[old(active)], inputNodes, inputs);
        var sw := Sweep(old(nodeEvals), iv, WithInputs(old(values)[1 - old(active)], inputNodes, inputs),
                        old(modulateValues), modulatoryMode);
        active == 1 - old(active) && values[old(active)] == iv && values[active] == sw.ov &&
        modulateValues == sw.mv &&
        (sw.fault.Some? ==>
          r == Err(sw.fault.value) && nodeEvals == old(nodeEvals) && modulatedValues == old(modulatedValues)) &&
        (sw.fault.None? ==>
          modulatedValues == Modulated(old(nodeEvals), sw.mv, globalParams.md, old(modulatedValues)) &&
          nodeEvals == Plasticity(old(nodeEvals), Gated(globalParams, iv, sw.ov, modulatedValues, tanh)) &&
          r == Ok(Select(sw.ov, outputNodes)))
    {
      if |inputNodes| != |inputs| {
        return Err(InputArity(|inputNodes|, |inputs|));
      }
      var was := active;
      var iv := values[was];
      var ov := values[1 - was];
      active := 1 - active;

      WithInputsKeys(iv, inputNodes, inputs);
      WithInputsKeys(ov, inputNodes, inputs);
      iv, ov := WriteInputs(iv, ov, inputNodes, inputs);

      NodesInKeys(nodeEvals, originalNodeEvals);
      SweepKeys(nodeEvals, iv, ov, modulateValues, modulatoryMode);
      var ov0 := ov;
      var mv, fault;
      ov, mv, fault := RunSweep(nodeEvals, iv, ov, modulateValues, modulatoryMode);
      ghost var sw := Sweep(nodeEvals, iv, ov0, modulateValues, modulatoryMode);
      assert ov == sw.ov && mv == sw.mv && fault == sw.fault;
      assert ov.Keys == Keys() && mv.Keys == Keys();
      values := [if was == 0 then iv else ov, if was == 0 then ov else iv];
      modulateValues := mv;
      assert Valid();
      if fault.Some? {
        return Err(fault.value);
      }

      Learn(iv, ov);
      return Ok(Select(ov, outputNodes));
    }
  }
}
