/** The shared weight-update utility (modneat/nn/utils.py) and the plasticity pass
    built from it: after a forward step every traversed link asks for its
    (source, target) weight to be raised by a Hebbian amount. */
module WeightUpdate {
  import opened Records

  /** What the shared weight update of pair (src, tgt) by v leaves behind: in every record keyed
      `tgt`, every link from `src` has `v` added to its weight; nothing else moves. */
  function WeightChanged(evals: seq<NodeEval>, src: Key, tgt: Key, v: real): seq<NodeEval>
  {
    seq(|evals|, k requires 0 <= k < |evals| =>
      if evals[k].node == tgt then evals[k].(links := Bumped(evals[k].links, src, v)) else evals[k])
  }

  function Bumped(links: seq<Link>, src: Key, v: real): seq<Link>
  {
    seq(|links|, j requires 0 <= j < |links| =>
      if links[j].src == src then links[j].(weight := links[j].weight + v) else links[j])
  }

  /** One link of the updated list, as the loops of `weight_change` produce it. */
  lemma WeightChangedLink(evals: seq<NodeEval>, src: Key, tgt: Key, v: real, k: nat, j: nat)
    requires k < |evals| && j < |evals[k].links|
    ensures var w := WeightChanged(evals, src, tgt, v);
      |w| == |evals| && |w[k].links| == |evals[k].links| &&
      w[k] == evals[k].(links := w[k].links) &&
      w[k].links[j] == if evals[k].node == tgt && evals[k].links[j].src == src
                       then evals[k].links[j].(weight := evals[k].links[j].weight + v)
                       else evals[k].links[j]
  {
  }

  /** `weight_change` in modneat/nn/utils.py: scan the records for the target node,
      scan its links for the source, and replace each matching link by one whose
      weight is `value` larger. The code reads the first link of every record to
      learn the tuple width (2 or 6), so a record without links is an error there. */
  method WeightChange(nodeEvals: seq<NodeEval>, inputNode: Key, outputNode: Key, value: real)
    returns (r: seq<NodeEval>)
    requires LinksPresent(nodeEvals)
    ensures r == WeightChanged(nodeEvals, inputNode, outputNode, value)
  {
    ghost var target := WeightChanged(nodeEvals, inputNode, outputNode, value);
    r := nodeEvals;
    var k := 0;
    while k < |r|
      invariant 0 <= k <= |r| == |nodeEvals| == |target|
      invariant forall q :: 0 <= q < k ==> r[q] == target[q]
      invariant forall q :: k <= q < |r| ==> r[q] == nodeEvals[q]
    {
      var j := 0;
      while j < |r[k].links|
        invariant |r| == |nodeEvals|
        invariant 0 <= j <= |r[k].links| == |nodeEvals[k].links|
        invariant r[k] == nodeEvals[k].(links := r[k].links)
        invariant forall q :: 0 <= q < j ==> r[k].links[q] == target[k].links[q]
        invariant forall q :: j <= q < |r[k].links| ==> r[k].links[q] == nodeEvals[k].links[q]
        invariant forall q :: 0 <= q < k ==> r[q] == target[q]
        invariant forall q :: k < q < |r| ==> r[q] == nodeEvals[q]
      {
        WeightChangedLink(nodeEvals, inputNode, outputNode, value, k, j);
        var rec := r[k];
        if inputNode == rec.links[j].src && outputNode == rec.node {
          var link := rec.links[j];
          r := r[k := rec.(links := rec.links[j := link.(weight := link.weight + value)])];
        }
        j := j + 1;
      }
      assert r[k] == target[k] by {
        if |nodeEvals[k].links| > 0 {
          WeightChangedLink(nodeEvals, inputNode, outputNode, value, k, 0);
        }
        assert r[k].links == target[k].links;
      }
      k := k + 1;
    }
  }

  /** Exactly the matching links gain `v`; sources, coefficients, record fields,
      record count and every link-list length are unchanged. */
  lemma WeightChangedAt(evals: seq<NodeEval>, src: Key, tgt: Key, v: real)
    ensures SameShape(WeightChanged(evals, src, tgt, v), evals)
    ensures forall k, j :: 0 <= k < |evals| && 0 <= j < |evals[k].links| ==>
      WeightChanged(evals, src, tgt, v)[k].links[j].weight ==
        evals[k].links[j].weight + (if evals[k].node == tgt && evals[k].links[j].src == src then v else 0.0)
  {
    var w := WeightChanged(evals, src, tgt, v);
    forall k | 0 <= k < |evals| ensures SameRecordShape(w[k], evals[k]) {
      if |evals[k].links| > 0 {
        WeightChangedLink(evals, src, tgt, v, k, 0);
      }
    }
  }

  /** When no record of `tgt` has a link from `src`, the records are left as they were. */
  lemma WeightChangedNoMatch(evals: seq<NodeEval>, src: Key, tgt: Key, v: real)
    requires forall k, j :: 0 <= k < |evals| && 0 <= j < |evals[k].links| ==>
      !(evals[k].node == tgt && evals[k].links[j].src == src)
    ensures WeightChanged(evals, src, tgt, v) == evals
  {
    var w := WeightChanged(evals, src, tgt, v);
    forall k | 0 <= k < |evals| ensures w[k] == evals[k] {
      if evals[k].node == tgt {
        forall j | 0 <= j < |evals[k].links| ensures w[k].links[j] == evals[k].links[j] {
          WeightChangedLink(evals, src, tgt, v, k, j);
        }
        assert w[k].links == evals[k].links;
      }
    }
  }

  /** The update only adds to weights: two updates of one pair add up to a single one. */
  lemma WeightChangedAdditive(evals: seq<NodeEval>, src: Key, tgt: Key, v1: real, v2: real)
    ensures WeightChanged(WeightChanged(evals, src, tgt, v1), src, tgt, v2) == WeightChanged(evals, src, tgt, v1 + v2)
  {
    var w1 := WeightChanged(evals, src, tgt, v1);
    var a := WeightChanged(w1, src, tgt, v2);
    var b := WeightChanged(evals, src, tgt, v1 + v2);
    forall k | 0 <= k < |evals| ensures a[k] == b[k] {
      if evals[k].node == tgt {
        forall j | 0 <= j < |evals[k].links| ensures a[k].links[j] == b[k].links[j] {
          WeightChangedLink(evals, src, tgt, v1, k, j);
          WeightChangedLink(w1, src, tgt, v2, k, j);
          WeightChangedLink(evals, src, tgt, v1 + v2, k, j);
        }
        assert a[k].links == b[k].links;
      }
    }
  }

  /** Updates of two pairs commute, so the order of a pass's updates does not matter. */
  lemma WeightChangedCommute(evals: seq<NodeEval>, s1: Key, t1: Key, v1: real, s2: Key, t2: Key, v2: real)
    ensures WeightChanged(WeightChanged(evals, s1, t1, v1), s2, t2, v2) ==
            WeightChanged(WeightChanged(evals, s2, t2, v2), s1, t1, v1)
  {
    var e1 := WeightChanged(evals, s1, t1, v1);
    var e2 := WeightChanged(evals, s2, t2, v2);
    var a := WeightChanged(e1, s2, t2, v2);
    var b := WeightChanged(e2, s1, t1, v1);
    forall k | 0 <= k < |evals| ensures a[k] == b[k] {
      if evals[k].node == t1 || evals[k].node == t2 {
        forall j | 0 <= j < |evals[k].links| ensures a[k].links[j] == b[k].links[j] {
          WeightChangedLink(evals, s1, t1, v1, k, j);
          WeightChangedLink(evals, s2, t2, v2, k, j);
          WeightChangedLink(e1, s2, t2, v2, k, j);
          WeightChangedLink(e2, s1, t1, v1, k, j);
        }
        assert a[k].links == b[k].links;
      }
    }
  }

  // ---------------------------------------------------------------------------
  // The plasticity pass

  /** How a pass computes the amount for a (source, target) pair: the plain
      four-term rule on a pre-synaptic and a post-synaptic value map, or the same
      rule gated by tanh(modulated[target] / 2). */
  datatype Rule =
    | Plain(p: Params, pre: map<Key, real>, post: map<Key, real>)
    | Gated(p: Params, pre: map<Key, real>, post: map<Key, real>, modulated: map<Key, real>, tanh: real -> real)

  function Delta(rule: Rule, s: Key, t: Key): real
  {
    match rule
    case Plain(p, pre, post) => Hebbian(p, At(pre, s), At(post, t))
    case Gated(p, pre, post, md, tanh) => tanh(At(md, t) / 2.0) * Hebbian(p, At(pre, s), At(post, t))
  }

  /** The plain amount for link (s, t) is `eta * (a*x*y + b*x + c*y + d)` with
      x the source's value in the pre-synaptic map and y the target's value in the
      post-synaptic one. */
  lemma PlainDelta(p: Params, pre: map<Key, real>, post: map<Key, real>, s: Key, t: Key)
    requires s in pre && t in post
    ensures Delta(Plain(p, pre, post), s, t) ==
      p.eta * (p.a * pre[s] * post[t] + p.b * pre[s] + p.c * post[t] + p.d)
  {
  }

  /** The (source, target) pair of every link of a record, in link order. */
  function RecordPairs(r: NodeEval): (ps: seq<(Key, Key)>)
    ensures |ps| == |r.links|
  {
    seq(|r.links|, j requires 0 <= j < |r.links| => (r.links[j].src, r.node))
  }

  /** The pairs a pass visits, record by record and link by link. */
  function Pairs(evals: seq<NodeEval>): seq<(Key, Key)>
    decreases |evals|
  {
    if evals == [] then [] else RecordPairs(evals[0]) + Pairs(evals[1..])
  }

  /** The weight updates of a pass applied one after another. */
  function Fold(evals: seq<NodeEval>, ps: seq<(Key, Key)>, rule: Rule): seq<NodeEval>
    decreases |ps|
  {
    if ps == [] then evals
    else Fold(WeightChanged(evals, ps[0].0, ps[0].1, Delta(rule, ps[0].0, ps[0].1)), ps[1..], rule)
  }

  /** The whole plasticity pass over a record list. */
  function Plasticity(evals: seq<NodeEval>, rule: Rule): seq<NodeEval>
  {
    Fold(evals, Pairs(evals), rule)
  }

  /** One link of the pass: its update is the next one the fold applies, and it
      changes weights only. */
  lemma PassStep(r: seq<NodeEval>, base: seq<NodeEval>, rec: NodeEval, j: nat, rest: seq<(Key, Key)>, rule: Rule)
    requires SameShape(r, base) && j < |rec.links|
    ensures var u := Delta(rule, rec.links[j].src, rec.node);
      var r' := WeightChanged(r, rec.links[j].src, rec.node, u);
      Fold(r, RecordPairs(rec)[j..] + rest, rule) == Fold(r', RecordPairs(rec)[j + 1..] + rest, rule) &&
      SameShape(r', base)
  {
    var u := Delta(rule, rec.links[j].src, rec.node);
    assert (RecordPairs(rec)[j..] + rest)[1..] == RecordPairs(rec)[j + 1..] + rest;
    WeightChangedAt(r, rec.links[j].src, rec.node, u);
    SameShapeTrans(WeightChanged(r, rec.links[j].src, rec.node, u), r, base);
  }

  /** The pass as the networks run it: for every record in order and every link of
      it in order, the amount for (source, node) is computed and handed to
      WeightChange, which adds it to every link carrying that pair. */
  method PlasticityPass(nodeEvals: seq<NodeEval>, rule: Rule) returns (r: seq<NodeEval>)
    requires LinksPresent(nodeEvals)
    ensures r == Plasticity(nodeEvals, rule)
  {
    ghost var target := Plasticity(nodeEvals, rule);
    r := nodeEvals;
    var k := 0;
    while k < |nodeEvals|
      invariant 0 <= k <= |nodeEvals|
      invariant Fold(r, Pairs(nodeEvals[k..]), rule) == target
      invariant SameShape(r, nodeEvals)
    {
      var rec := nodeEvals[k];
      assert nodeEvals[k..][1..] == nodeEvals[k + 1..];
      assert RecordPairs(rec)[0..] == RecordPairs(rec);
      var j := 0;
      while j < |rec.links|
        invariant 0 <= j <= |rec.links|
        invariant Fold(r, RecordPairs(rec)[j..] + Pairs(nodeEvals[k + 1..]), rule) == target
        invariant SameShape(r, nodeEvals)
      {
        var src := rec.links[j].src;
        var update := Delta(rule, src, rec.node);
        PassStep(r, nodeEvals, rec, j, Pairs(nodeEvals[k + 1..]), rule);
        ShapeLinksPresent(r, nodeEvals);
        r := WeightChange(r, src, rec.node, update);
        j := j + 1;
      }
      assert RecordPairs(rec)[j..] + Pairs(nodeEvals[k + 1..]) == Pairs(nodeEvals[k + 1..]);
      k := k + 1;
    }
  }

  /** The total a list of updates adds to the links of pair x. */
  function SumFor(ps: seq<(Key, Key)>, x: (Key, Key), rule: Rule): real
    decreases |ps|
  {
    if ps == [] then 0.0
    else (if ps[0] == x then Delta(rule, x.0, x.1) else 0.0) + SumFor(ps[1..], x, rule)
  }

  /** n copies of d added up: n * d, kept free of multiplication so that the
      solver stays within linear arithmetic. */
  function Times(n: nat, d: real): real
  {
    if n == 0 then 0.0 else d + Times(n - 1, d)
  }

  /** Every update of pair x adds the same amount, so the total is that amount
      once per occurrence of x. */
  lemma {:induction false} SumForCount(ps: seq<(Key, Key)>, x: (Key, Key), rule: Rule)
    ensures SumFor(ps, x, rule) == Times(multiset(ps)[x], Delta(rule, x.0, x.1))
    decreases |ps|
  {
    if ps != [] {
      SumForCount(ps[1..], x, rule);
      assert ps == [ps[0]] + ps[1..];
      assert multiset(ps) == multiset([ps[0]]) + multiset(ps[1..]);
    }
  }

  /** After a sequence of updates, each link's weight has grown by the total of the
      updates naming its (source, target) pair, and nothing but weights changed. */
  lemma {:induction false} FoldAt(evals: seq<NodeEval>, ps: seq<(Key, Key)>, rule: Rule)
    ensures SameShape(Fold(evals, ps, rule), evals)
    ensures forall k, j :: 0 <= k < |evals| && 0 <= j < |evals[k].links| ==>
      Fold(evals, ps, rule)[k].links[j].weight ==
        evals[k].links[j].weight + SumFor(ps, (evals[k].links[j].src, evals[k].node), rule)
    decreases |ps|
  {
    if ps == [] {
      assert SameShape(evals, evals) by {
        forall k | 0 <= k < |evals| ensures SameRecordShape(evals[k], evals[k]) {}
      }
    } else {
      var p := ps[0];
      var e1 := WeightChanged(evals, p.0, p.1, Delta(rule, p.0, p.1));
      WeightChangedAt(evals, p.0, p.1, Delta(rule, p.0, p.1));
      FoldAt(e1, ps[1..], rule);
      SameShapeTrans(Fold(e1, ps[1..], rule), e1, evals);
      forall k, j | 0 <= k < |evals| && 0 <= j < |evals[k].links|
        ensures Fold(evals, ps, rule)[k].links[j].weight ==
          evals[k].links[j].weight + SumFor(ps, (evals[k].links[j].src, evals[k].node), rule)
      {
        assert SameRecordShape(e1[k], evals[k]);
      }
    }
  }

  /** The pass changes weights only. */
  lemma PlasticityShape(evals: seq<NodeEval>, rule: Rule)
    ensures SameShape(Plasticity(evals, rule), evals)
  {
    FoldAt(evals, Pairs(evals), rule);
  }

  /** The pass adds to each link its pair's amount once per link that carries the
      same (source, target) pair. */
  lemma PlasticityCount(evals: seq<NodeEval>, rule: Rule, k: nat, j: nat)
    requires k < |evals| && j < |evals[k].links|
    ensures |Plasticity(evals, rule)| == |evals| && |Plasticity(evals, rule)[k].links| == |evals[k].links|
    ensures Plasticity(evals, rule)[k].links[j].weight ==
      evals[k].links[j].weight +
        Times(multiset(Pairs(evals))[(evals[k].links[j].src, evals[k].node)],
              Delta(rule, evals[k].links[j].src, evals[k].node))
  {
    FoldAt(evals, Pairs(evals), rule);
    assert SameRecordShape(Plasticity(evals, rule)[k], evals[k]);
    SumForCount(Pairs(evals), (evals[k].links[j].src, evals[k].node), rule);
  }

  lemma {:induction false} DistinctCount<T>(s: seq<T>, i: nat)
    requires Distinct(s) && i < |s|
    ensures multiset(s)[s[i]] == 1
    decreases |s|
  {
    assert s == [s[0]] + s[1..];
    assert multiset(s) == multiset([s[0]]) + multiset(s[1..]);
    if i == 0 {
      assert s[0] !in s[1..] by {
        forall q | 0 <= q < |s[1..]| ensures s[1..][q] != s[0] {
          assert s[1..][q] == s[q + 1];
        }
      }
    } else {
      assert s[1..][i - 1] == s[i];
      DistinctCount(s[1..], i - 1);
      assert s[0] != s[i];
    }
  }

  /** A record's pairs are distinct when its sources are. */
  lemma RecordPairsCount(r: NodeEval, j: nat)
    requires DistinctSources(r.links) && j < |r.links|
    ensures multiset(RecordPairs(r))[(r.links[j].src, r.node)] == 1
  {
    var ps := RecordPairs(r);
    assert Distinct(ps) by {
      forall a, b | 0 <= a < b < |ps| ensures ps[a] != ps[b] {
        assert r.links[a].src != r.links[b].src;
      }
    }
    DistinctCount(ps, j);
  }

  /** A record of another node contributes no pair for target t. */
  lemma RecordPairsOther(r: NodeEval, s: Key, t: Key)
    requires r.node != t
    ensures multiset(RecordPairs(r))[(s, t)] == 0
  {
    assert (s, t) !in RecordPairs(r);
  }

  /** No record of node t: no pair for target t. */
  lemma {:induction false} PairsAbsent(evals: seq<NodeEval>, s: Key, t: Key)
    requires forall q :: 0 <= q < |evals| ==> evals[q].node != t
    ensures multiset(Pairs(evals))[(s, t)] == 0
    decreases |evals|
  {
    if evals != [] {
      RecordPairsOther(evals[0], s, t);
      PairsAbsent(evals[1..], s, t);
    }
  }

  /** With distinct nodes and, in the record at hand, distinct sources, each link's
      pair occurs once in the pass. */
  lemma {:induction false} PairsCount(evals: seq<NodeEval>, k: nat, j: nat)
    requires DistinctNodes(evals) && k < |evals| && j < |evals[k].links|
    requires DistinctSources(evals[k].links)
    ensures multiset(Pairs(evals))[(evals[k].links[j].src, evals[k].node)] == 1
    decreases |evals|
  {
    var x := (evals[k].links[j].src, evals[k].node);
    if k == 0 {
      RecordPairsCount(evals[0], j);
      PairsAbsent(evals[1..], x.0, x.1);
    } else {
      RecordPairsOther(evals[0], x.0, x.1);
      assert evals[1..][k - 1] == evals[k];
      PairsCount(evals[1..], k - 1, j);
    }
  }

  /** The plasticity pass on well-formed records (distinct nodes, and distinct
      sources per node): every link's weight grows by exactly its own amount
      Delta(source, node), and nothing else changes. */
  lemma PlasticityAt(evals: seq<NodeEval>, rule: Rule, k: nat, j: nat)
    requires DistinctNodes(evals) && k < |evals| && j < |evals[k].links|
    requires DistinctSources(evals[k].links)
    ensures SameShape(Plasticity(evals, rule), evals)
    ensures Plasticity(evals, rule)[k].links[j].weight ==
      evals[k].links[j].weight + Delta(rule, evals[k].links[j].src, evals[k].node)
  {
    PlasticityShape(evals, rule);
    PlasticityCount(evals, rule, k, j);
    PairsCount(evals, k, j);
  }

  /** Records of the same shape as well-formed ones are well-formed too. Since every
      pass keeps the shape (`PlasticityShape`), each later pass on the records still
      grows every link's weight by exactly its own amount. */
  lemma ShapeLinkLearns(evals: seq<NodeEval>, base: seq<NodeEval>, rule: Rule, k: nat, j: nat)
    requires SameShape(evals, base) && DistinctNodes(base)
    requires k < |base| && j < |base[k].links| && DistinctSources(base[k].links)
    ensures SameShape(Plasticity(evals, rule), evals)
    ensures Plasticity(evals, rule)[k].links[j].weight ==
      evals[k].links[j].weight + Delta(rule, evals[k].links[j].src, evals[k].node)
  {
    assert DistinctNodes(evals) by {
      forall a, b | 0 <= a < b < |evals| ensures evals[a].node != evals[b].node {
        assert SameRecordShape(evals[a], base[a]) && SameRecordShape(evals[b], base[b]);
      }
    }
    assert SameRecordShape(evals[k], base[k]);
    PlasticityAt(evals, rule, k, j);
  }

}
