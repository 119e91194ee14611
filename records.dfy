/** The compiled form of a plastic network: node-evaluation records, their
    incoming links, the global plasticity parameters, the value maps the
    evaluators read and write, and the four-term Hebbian rule they share. */
module Records {

  /** Node keys are integers: inputs are negative, outputs and hidden nodes are not. */
  type Key = int

  datatype Option<T> = None | Some(value: T)

  /** Everything that aborts a call of the engine. */
  datatype Error =
    | InputArity(expected: nat, got: nat)    // activate called with the wrong number of inputs
    | MissingValue(key: Key)                 // a link reads a node that has no value yet
    | RatioOutOfRange(node: Key, ratio: real) // modulatory ratio outside [0, 1]
    | InvalidMode(mode: string)              // modulatory mode other than "bool" or "float"
    | MissingNode(key: Key)                  // the genome has no gene for a compiled node
    | UnknownActivation(name: string)        // activation name absent from the function table
    | UnknownAggregation(name: string)       // aggregation name absent from the function table
    | ScopeMismatch(scope: string)           // global/local scope with the other coefficient nonzero

  datatype Result<T> = Ok(value: T) | Err(error: Error)

  /** The per-connection coefficients a, b, c, d carried by feed-forward links. */
  datatype Coeffs = Coeffs(a: real, b: real, c: real, d: real)

  /** An incoming link: the source node and the weight, plus, for the feed-forward
      variant, the connection's own a, b, c, d (a 6-field link rather than a pair). */
  datatype Link = Link(src: Key, weight: real, local: Option<Coeffs>)

  type Activation = real -> real
  type Aggregation = seq<real> -> real

  /** One node-evaluation record. `modulatory` is present only in the records of the
      modulated recurrent network. */
  datatype NodeEval = NodeEval(
    node: Key,
    modulatory: Option<real>,
    act: Activation,
    agg: Aggregation,
    bias: real,
    response: real,
    links: seq<Link>)

  /** The genome's single global-parameter record. */
  datatype Params = Params(eta: real, a: real, b: real, c: real, d: real, md: real)

  /** The four-term (ABCD) rule: the weight change for pre-synaptic value x and
      post-synaptic value y. */
  function Hebbian(p: Params, x: real, y: real): real
  {
    p.eta * (p.a * x * y + p.b * x + p.c * y + p.d)
  }

  // ---------------------------------------------------------------------------
  // Value maps

  /** Reads a value map. Every read the evaluators perform is at a key their
      invariants put in the map, so the fallback is never what a caller sees. */
  function At(m: map<Key, real>, k: Key): real
  {
    if k in m then m[k] else 0.0
  }

  ghost predicate Distinct<T>(s: seq<T>)
  {
    forall i, j :: 0 <= i < j < |s| ==> s[i] != s[j]
  }

  function Elems(s: seq<Key>): set<Key>
  {
    set x | x in s
  }

  /** Every value of the map is 0.0. */
  function ZeroMap(keys: set<Key>): map<Key, real>
  {
    map k | k in keys :: 0.0
  }

  /** A buffer zeroed in place of its values: the same keys, every value 0.0. */
  function Zeroed(m: map<Key, real>): (z: map<Key, real>)
    ensures z.Keys == m.Keys
    ensures forall k :: k in z ==> z[k] == 0.0
  {
    ZeroMap(m.Keys)
  }

  /** Zeroing is idempotent, so a reset applied twice leaves the buffers as one does. */
  lemma ZeroedIdempotent(m: map<Key, real>)
    ensures Zeroed(Zeroed(m)) == Zeroed(m)
  {
  }

  /** Input value i written at input key i, in order, so a later write to a repeated
      key wins. */
  function WithInputs(m: map<Key, real>, keys: seq<Key>, vals: seq<real>): map<Key, real>
    requires |keys| == |vals|
    decreases |keys|
  {
    if keys == [] then m else WithInputs(m[keys[0] := vals[0]], keys[1..], vals[1..])
  }

  /** Writing the inputs adds exactly the input keys to the map. */
  lemma {:induction false} WithInputsKeys(m: map<Key, real>, keys: seq<Key>, vals: seq<real>)
    requires |keys| == |vals|
    ensures WithInputs(m, keys, vals).Keys == m.Keys + Elems(keys)
    decreases |keys|
  {
    if keys != [] {
      WithInputsKeys(m[keys[0] := vals[0]], keys[1..], vals[1..]);
      assert Elems(keys) == {keys[0]} + Elems(keys[1..]) by {
        assert keys == [keys[0]] + keys[1..];
      }
    }
  }

  /** With distinct input keys, input i is stored at key i and every other key keeps
      its value. */
  lemma {:induction false} WithInputsAt(m: map<Key, real>, keys: seq<Key>, vals: seq<real>)
    requires |keys| == |vals| && Distinct(keys)
    ensures WithInputs(m, keys, vals).Keys == m.Keys + Elems(keys)
    ensures forall i :: 0 <= i < |keys| ==> WithInputs(m, keys, vals)[keys[i]] == vals[i]
    ensures forall k :: k in m && k !in keys ==> WithInputs(m, keys, vals)[k] == m[k]
    decreases |keys|
  {
    WithInputsKeys(m, keys, vals);
    if keys != [] {
      var m1 := m[keys[0] := vals[0]];
      WithInputsAt(m1, keys[1..], vals[1..]);
      WithInputsKeys(m1, keys[1..], vals[1..]);
      forall i | 0 <= i < |keys|
        ensures WithInputs(m, keys, vals)[keys[i]] == vals[i]
      {
        if i == 0 {
          assert keys[0] !in keys[1..] by {
            forall q | 0 <= q < |keys[1..]| ensures keys[1..][q] != keys[0] {
              assert keys[1..][q] == keys[q + 1];
            }
          }
        } else {
          assert keys[1..][i - 1] == keys[i];
        }
      }
    }
  }

  /** The input loop of `activate`: writes input value i at input key i in both
      buffers, in order. */
  method WriteInputs(iv: map<Key, real>, ov: map<Key, real>, keys: seq<Key>, vals: seq<real>)
    returns (iv': map<Key, real>, ov': map<Key, real>)
    requires |keys| == |vals|
    ensures iv' == WithInputs(iv, keys, vals) && ov' == WithInputs(ov, keys, vals)
  {
    iv', ov' := iv, ov;
    var i := 0;
    while i < |vals|
      invariant 0 <= i <= |vals|
      invariant WithInputs(iv', keys[i..], vals[i..]) == WithInputs(iv, keys, vals)
      invariant WithInputs(ov', keys[i..], vals[i..]) == WithInputs(ov, keys, vals)
    {
      assert keys[i..][1..] == keys[i + 1..] && vals[i..][1..] == vals[i + 1..];
      iv' := iv'[keys[i] := vals[i]];
      ov' := ov'[keys[i] := vals[i]];
      i := i + 1;
    }
  }

  /** The output list: the map's value at each output key, in key order. */
  function Select(m: map<Key, real>, keys: seq<Key>): (r: seq<real>)
    ensures |r| == |keys|
  {
    seq(|keys|, i requires 0 <= i < |keys| => At(m, keys[i]))
  }

  // ---------------------------------------------------------------------------
  // Node evaluation

  /** One weighted input: the source's value times the link's weight. */
  function Input(m: map<Key, real>, l: Link): real
  {
    At(m, l.src) * l.weight
  }

  /** The weighted inputs of a record: `Input(m, l)` for each link l, in link order. */
  function Weighted(links: seq<Link>, m: map<Key, real>): (r: seq<real>)
    ensures |r| == |links|
  {
    seq(|links|, j requires 0 <= j < |links| => Input(m, links[j]))
  }

  /** Gathering one more link appends its weighted input. */
  lemma WeightedSnoc(links: seq<Link>, l: Link, m: map<Key, real>)
    ensures Weighted(links + [l], m) == Weighted(links, m) + [Input(m, l)]
  {
    var a, b := Weighted(links + [l], m), Weighted(links, m) + [Input(m, l)];
    forall j | 0 <= j < |a| ensures a[j] == b[j] {
      if j < |links| {
        assert (links + [l])[j] == links[j];
      }
    }
  }

  /** The node's output for aggregated input s: its activation applied to bias plus
      response times s. */
  function Fire(r: NodeEval, s: real): real
  {
    r.act(r.bias + r.response * s)
  }

  /** A node's value on map m: `Fire(r, r.agg(Weighted(r.links, m)))`. */
  function NodeValue(r: NodeEval, m: map<Key, real>): real
  {
    Fire(r, r.agg(Weighted(r.links, m)))
  }

  /** The products read nothing but the link sources' values. */
  lemma WeightedReadsSources(links: seq<Link>, m1: map<Key, real>, m2: map<Key, real>)
    requires forall j :: 0 <= j < |links| ==> At(m1, links[j].src) == At(m2, links[j].src)
    ensures Weighted(links, m1) == Weighted(links, m2)
  {
    var w1, w2 := Weighted(links, m1), Weighted(links, m2);
    forall j | 0 <= j < |links| ensures w1[j] == w2[j] {
      assert w1[j] == At(m1, links[j].src) * links[j].weight;
    }
  }

  /** A node's value depends only on the values of its link sources. */
  lemma NodeValueReadsSources(r: NodeEval, m1: map<Key, real>, m2: map<Key, real>)
    requires forall j :: 0 <= j < |r.links| ==> At(m1, r.links[j].src) == At(m2, r.links[j].src)
    ensures NodeValue(r, m1) == NodeValue(r, m2)
  {
    WeightedReadsSources(r.links, m1, m2);
  }

  // ---------------------------------------------------------------------------
  // Structure of a record list

  ghost predicate DistinctNodes(evals: seq<NodeEval>)
  {
    forall k, q :: 0 <= k < q < |evals| ==> evals[k].node != evals[q].node
  }

  /** The nodes a record list writes. */
  function Nodes(evals: seq<NodeEval>): set<Key>
  {
    set k | 0 <= k < |evals| :: evals[k].node
  }

  lemma NodesCons(evals: seq<NodeEval>)
    requires evals != []
    ensures Nodes(evals) == {evals[0].node} + Nodes(evals[1..])
  {
    forall x | x in Nodes(evals) ensures x in {evals[0].node} + Nodes(evals[1..]) {
      var k :| 0 <= k < |evals| && evals[k].node == x;
      if k > 0 {
        assert evals[1..][k - 1].node == x;
      }
    }
    forall x | x in Nodes(evals[1..]) ensures x in Nodes(evals) {
      var k :| 0 <= k < |evals[1..]| && evals[1..][k].node == x;
      assert evals[k + 1].node == x;
    }
  }


  lemma DistinctTail(evals: seq<NodeEval>)
    requires evals != [] && DistinctNodes(evals)
    ensures DistinctNodes(evals[1..]) && evals[0].node !in Nodes(evals[1..])
  {
    forall a, b | 0 <= a < b < |evals[1..]| ensures evals[1..][a].node != evals[1..][b].node {
      assert evals[1..][a] == evals[a + 1] && evals[1..][b] == evals[b + 1];
    }
    forall q | 0 <= q < |evals[1..]| ensures evals[1..][q].node != evals[0].node {
      assert evals[1..][q] == evals[q + 1];
    }
  }


  /** Every record node is an allocated key. */
  lemma NodesInKeys(a: seq<NodeEval>, b: seq<NodeEval>)
    requires SameShape(a, b)
    ensures Nodes(a) <= RecordKeys(b)
  {
    forall x | x in Nodes(a) ensures x in RecordKeys(b) {
      var k :| 0 <= k < |a| && a[k].node == x;
      ShapeKeys(a, b, k);
    }
  }

  ghost predicate DistinctSources(links: seq<Link>)
  {
    forall i, j :: 0 <= i < j < |links| ==> links[i].src != links[j].src
  }

  /** The shared weight update reads each record's first link to learn the link
      width, so every record needs at least one link. */
  ghost predicate LinksPresent(evals: seq<NodeEval>)
  {
    forall k :: 0 <= k < |evals| ==> |evals[k].links| > 0
  }

  /** Two records agree on everything but their link weights. */
  ghost predicate SameRecordShape(r: NodeEval, q: NodeEval)
  {
    r.node == q.node && r.modulatory == q.modulatory && r.act == q.act && r.agg == q.agg &&
    r.bias == q.bias && r.response == q.response && |r.links| == |q.links| &&
    forall j :: 0 <= j < |r.links| ==> r.links[j].src == q.links[j].src && r.links[j].local == q.links[j].local
  }

  /** Two record lists agree on everything but their link weights. */
  ghost predicate SameShape(a: seq<NodeEval>, b: seq<NodeEval>)
  {
    |a| == |b| && forall k :: 0 <= k < |a| ==> SameRecordShape(a[k], b[k])
  }

  /** The keys a recurrent network allocates: every record's node and every link source. */
  function RecordKeys(evals: seq<NodeEval>): set<Key>
    decreases |evals|
  {
    if evals == [] then {}
    else {evals[0].node} + (set j | 0 <= j < |evals[0].links| :: evals[0].links[j].src) + RecordKeys(evals[1..])
  }

  /** The buffers' key set: inputs, outputs, record nodes and link sources. */
  function AllKeys(inputs: seq<Key>, outputs: seq<Key>, evals: seq<NodeEval>): set<Key>
  {
    Elems(inputs) + Elems(outputs) + RecordKeys(evals)
  }

  /** Every record node and every link source is among the allocated keys. */
  lemma {:induction false} RecordKeysContain(evals: seq<NodeEval>, k: nat)
    requires k < |evals|
    ensures evals[k].node in RecordKeys(evals)
    ensures forall j :: 0 <= j < |evals[k].links| ==> evals[k].links[j].src in RecordKeys(evals)
    decreases |evals|
  {
    if k > 0 {
      RecordKeysContain(evals[1..], k - 1);
    }
  }

  /** Records of the same shape allocate the same keys. */
  lemma {:induction false} RecordKeysShape(a: seq<NodeEval>, b: seq<NodeEval>)
    requires SameShape(a, b)
    ensures RecordKeys(a) == RecordKeys(b)
    decreases |a|
  {
    if a != [] {
      assert SameShape(a[1..], b[1..]) by {
        forall k | 0 <= k < |a[1..]| ensures SameRecordShape(a[1..][k], b[1..][k]) {
          assert SameRecordShape(a[k + 1], b[k + 1]);
        }
      }
      RecordKeysShape(a[1..], b[1..]);
      assert SameRecordShape(a[0], b[0]);
      assert (set j | 0 <= j < |a[0].links| :: a[0].links[j].src) == (set j | 0 <= j < |b[0].links| :: b[0].links[j].src);
    }
  }

  lemma SameShapeTrans(a: seq<NodeEval>, b: seq<NodeEval>, c: seq<NodeEval>)
    requires SameShape(a, b) && SameShape(b, c)
    ensures SameShape(a, c)
  {
    forall k | 0 <= k < |a| ensures SameRecordShape(a[k], c[k]) {
      assert SameRecordShape(a[k], b[k]) && SameRecordShape(b[k], c[k]);
    }
  }

  lemma ShapeLinksPresent(a: seq<NodeEval>, b: seq<NodeEval>)
    requires SameShape(a, b) && LinksPresent(b)
    ensures LinksPresent(a)
  {
    forall k | 0 <= k < |a| ensures |a[k].links| > 0 {
      assert SameRecordShape(a[k], b[k]);
    }
  }

  /** Every node and link source of records shaped like `b` is among b's keys. */
  lemma ShapeKeys(a: seq<NodeEval>, b: seq<NodeEval>, k: nat)
    requires SameShape(a, b) && k < |a|
    ensures a[k].node in RecordKeys(b)
    ensures forall j :: 0 <= j < |a[k].links| ==> a[k].links[j].src in RecordKeys(b)
  {
    RecordKeysShape(a, b);
    RecordKeysContain(a, k);
  }

  // ---------------------------------------------------------------------------
  // Buffers

  /** The recurrent constructors' loops: 0.0 at every input and output key, then at
      every record's node and every link's source. */
  method ZeroBuffer(inputs: seq<Key>, outputs: seq<Key>, evals: seq<NodeEval>) returns (v: map<Key, real>)
    ensures v == ZeroMap(AllKeys(inputs, outputs, evals))
  {
    ghost var all := AllKeys(inputs, outputs, evals);
    v := map[];
    var io := inputs + outputs;
    var i := 0;
    while i < |io|
      invariant 0 <= i <= |io|
      invariant v.Keys == Elems(io[..i])
      invariant forall x :: x in v ==> v[x] == 0.0
    {
      assert io[..i + 1] == io[..i] + [io[i]];
      v := v[io[i] := 0.0];
      i := i + 1;
    }
    assert io[..i] == io;
    assert Elems(io) == Elems(inputs) + Elems(outputs);
    var k := 0;
    while k < |evals|
      invariant 0 <= k <= |evals|
      invariant v.Keys + RecordKeys(evals[k..]) == all
      invariant forall x :: x in v ==> v[x] == 0.0
    {
      var rec := evals[k];
      assert evals[k..][0] == rec && evals[k..][1..] == evals[k + 1..];
      v := v[rec.node := 0.0];
      var j := 0;
      while j < |rec.links|
        invariant 0 <= j <= |rec.links|
        invariant v.Keys + (set q | j <= q < |rec.links| :: rec.links[q].src) + RecordKeys(evals[k + 1..]) == all
        invariant forall x :: x in v ==> v[x] == 0.0
      {
        assert (set q | j <= q < |rec.links| :: rec.links[q].src) ==
               {rec.links[j].src} + (set q | j + 1 <= q < |rec.links| :: rec.links[q].src);
        v := v[rec.links[j].src := 0.0];
        j := j + 1;
      }
      k := k + 1;
    }
    assert evals[k..] == [];
    assert v.Keys == all;
    forall x | x in v ensures v[x] == ZeroMap(all)[x] {}
  }
}
