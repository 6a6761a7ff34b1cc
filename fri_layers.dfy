/** The FRI commitment phase of the hint generator: for each inner layer, in
    order, absorb its commitment, draw its folding challenge, and fold the
    running degree bound by FOLD_STEP; the run stops at the first layer whose
    bound is too small to fold. The running bound starts at the largest column
    bound folded onto the line. */
module FriLayers {
  import opened FsTypes
  import opened Transcript

  /** CirclePolyDegreeBound::fold_to_line: the bound of the line polynomial a
      circle polynomial folds onto. */
  function FoldToLine(bound: nat, circleToLineFoldStep: nat): nat
    requires bound >= circleToLineFoldStep
  {
    bound - circleToLineFoldStep
  }

  /** LinePolyDegreeBound::fold: folding n times is impossible below n. */
  function Fold(bound: nat, n: nat): Option<nat>
  {
    if bound < n then None else Some(bound - n)
  }

  /** LineDomain::double: doubling every point of a coset halves it. */
  function Double(d: LineDomain): LineDomain
  {
    LineDomain(if d.logSize == 0 then 0 else d.logSize - 1)
  }

  /** The loop's variables: the channel log, `folding_alphas`,
      `fri_commitment_and_folding_hints`, `layer_bound` (None once a fold
      failed) and `layer_domain`. */
  datatype FriState = FriState(
    log: seq<Event>,
    alphas: seq<QM31>,
    pairs: seq<(Hash, DrawHints)>,
    bound: Option<nat>,
    domain: LineDomain)

  /** One iteration of the loop over the inner layers. */
  function FriStep(o: Oracle, foldStep: nat, s: FriState, layer: FriLayerProof): FriState
    requires s.bound.Some?
  {
    var log := s.log + [AbsorbDigest(layer.commitment)];
    var d := o.felt(log);
    FriState(log + [DrawFelt], s.alphas + [d.value], s.pairs + [(layer.commitment, d.hint)],
             Fold(s.bound.value, foldStep), Double(s.domain))
  }

  /** The loop over `layers`, from `init`; once a fold has failed the loop has
      returned, so later layers change nothing. */
  function FriCommit(o: Oracle, foldStep: nat, init: FriState, layers: seq<FriLayerProof>): FriState
    decreases |layers|
  {
    if layers == [] then init
    else
      var prev := FriCommit(o, foldStep, init, layers[..|layers| - 1]);
      if prev.bound.None? then prev else FriStep(o, foldStep, prev, layers[|layers| - 1])
  }

  /** The channel events of the loop when every fold succeeds. */
  function FriEvents(layers: seq<FriLayerProof>): seq<Event>
    decreases |layers|
  {
    if layers == [] then []
    else FriEvents(layers[..|layers| - 1]) + [AbsorbDigest(layers[|layers| - 1].commitment), DrawFelt]
  }

  /** Layer-count law: the loop succeeds exactly when the start bound allows
      one FOLD_STEP per layer, and then ends at the start bound minus
      FOLD_STEP times the number of layers. */
  lemma {:induction false} FriCommitBound(o: Oracle, foldStep: nat, init: FriState, layers: seq<FriLayerProof>)
    requires init.bound.Some?
    ensures FriCommit(o, foldStep, init, layers).bound ==
      if |layers| * foldStep <= init.bound.value then Some(init.bound.value - |layers| * foldStep) else None
    decreases |layers|
  {
    if layers != [] {
      var n := |layers|;
      FriCommitBound(o, foldStep, init, layers[..n - 1]);
      assert n * foldStep == (n - 1) * foldStep + foldStep;
    }
  }

  /** Once a prefix of the layers has failed to fold, the whole loop ends in
      that prefix's state. */
  lemma {:induction false} FriCommitStopped(o: Oracle, foldStep: nat, init: FriState, layers: seq<FriLayerProof>, k: nat)
    requires k <= |layers|
    requires FriCommit(o, foldStep, init, layers[..k]).bound.None?
    ensures FriCommit(o, foldStep, init, layers) == FriCommit(o, foldStep, init, layers[..k])
    decreases |layers|
  {
    if k == |layers| {
      assert layers[..k] == layers;
    } else {
      var n := |layers|;
      assert layers[..n - 1][..k] == layers[..k];
      FriCommitStopped(o, foldStep, init, layers[..n - 1], k);
    }
  }

  /** The draw log of layer i: everything before the loop, the events of the
      layers before i, then layer i's own commitment. */
  function LayerDrawLog(init: FriState, layers: seq<FriLayerProof>, i: nat): seq<Event>
    requires i < |layers|
  {
    init.log + FriEvents(layers[..i]) + [AbsorbDigest(layers[i].commitment)]
  }

  /** On success the loop absorbed each layer commitment and then drew that
      layer's folding challenge, in layer order, recording one challenge and
      one pair per layer. */
  lemma {:induction false} FriCommitLogOnSuccess(o: Oracle, foldStep: nat, init: FriState, layers: seq<FriLayerProof>)
    requires init.bound.Some? && init.alphas == [] && init.pairs == []
    requires FriCommit(o, foldStep, init, layers).bound.Some?
    ensures FriCommit(o, foldStep, init, layers).log == init.log + FriEvents(layers)
    ensures |FriCommit(o, foldStep, init, layers).alphas| == |layers|
    ensures |FriCommit(o, foldStep, init, layers).pairs| == |layers|
    decreases |layers|
  {
    if layers != [] {
      var n := |layers|;
      var front := layers[..n - 1];
      var last := layers[n - 1];
      var prev := FriCommit(o, foldStep, init, front);
      FriCommitLogOnSuccess(o, foldStep, init, front);
      var r := FriCommit(o, foldStep, init, layers);
      assert r == FriStep(o, foldStep, prev, last);
      assert r.log == prev.log + [AbsorbDigest(last.commitment), DrawFelt];
    }
  }

  /** On success the loop absorbed each layer commitment and then drew that
      layer's folding challenge, in layer order, and returned one challenge
      and one (commitment, hint) pair per layer. */
  lemma {:induction false} FriCommitOnSuccess(o: Oracle, foldStep: nat, init: FriState, layers: seq<FriLayerProof>)
    requires init.bound.Some? && init.alphas == [] && init.pairs == []
    requires FriCommit(o, foldStep, init, layers).bound.Some?
    ensures FriCommit(o, foldStep, init, layers).log == init.log + FriEvents(layers)
    ensures |FriCommit(o, foldStep, init, layers).alphas| == |layers|
    ensures |FriCommit(o, foldStep, init, layers).pairs| == |layers|
    ensures forall i :: 0 <= i < |layers| ==>
      FriCommit(o, foldStep, init, layers).alphas[i] == o.felt(LayerDrawLog(init, layers, i)).value
    ensures forall i :: 0 <= i < |layers| ==>
      FriCommit(o, foldStep, init, layers).pairs[i] ==
        (layers[i].commitment, o.felt(LayerDrawLog(init, layers, i)).hint)
    decreases |layers|
  {
    FriCommitLogOnSuccess(o, foldStep, init, layers);
    if layers != [] {
      var n := |layers|;
      var front := layers[..n - 1];
      var last := layers[n - 1];
      var prev := FriCommit(o, foldStep, init, front);
      FriCommitOnSuccess(o, foldStep, init, front);
      var d := o.felt(prev.log + [AbsorbDigest(last.commitment)]);
      var r := FriCommit(o, foldStep, init, layers);
      assert r == FriStep(o, foldStep, prev, last);
      assert r.alphas == prev.alphas + [d.value];
      assert r.pairs == prev.pairs + [(last.commitment, d.hint)];
      LayerDrawLogFront(init, layers);
      forall i | 0 <= i < n
        ensures r.alphas[i] == o.felt(LayerDrawLog(init, layers, i)).value
        ensures r.pairs[i] == (layers[i].commitment, o.felt(LayerDrawLog(init, layers, i)).hint)
      {
        if i < n - 1 {
          assert r.alphas[i] == prev.alphas[i] && r.pairs[i] == prev.pairs[i];
        }
      }
    }
  }

  /** The draw log of an earlier layer does not depend on the layers after
      it, and the last layer's draw follows every earlier layer's events. */
  lemma LayerDrawLogFront(init: FriState, layers: seq<FriLayerProof>)
    requires |layers| > 0
    ensures var n := |layers|;
      LayerDrawLog(init, layers, n - 1) == init.log + FriEvents(layers[..n - 1]) + [AbsorbDigest(layers[n - 1].commitment)]
    ensures var n := |layers|;
      forall i :: 0 <= i < n - 1 ==> LayerDrawLog(init, layers[..n - 1], i) == LayerDrawLog(init, layers, i)
  {
    var n := |layers|;
    forall i | 0 <= i < n - 1
      ensures LayerDrawLog(init, layers[..n - 1], i) == LayerDrawLog(init, layers, i)
    {
      assert layers[..n - 1][..i] == layers[..i];
    }
  }

  /** The loop halves the layer domain once per layer it processes. */
  lemma {:induction false} FriCommitDomain(o: Oracle, foldStep: nat, init: FriState, layers: seq<FriLayerProof>)
    requires init.bound.Some?
    requires FriCommit(o, foldStep, init, layers).bound.Some?
    ensures FriCommit(o, foldStep, init, layers).domain.logSize ==
      if |layers| <= init.domain.logSize then init.domain.logSize - |layers| else 0
    decreases |layers|
  {
    if layers != [] {
      var front := layers[..|layers| - 1];
      assert FriCommit(o, foldStep, init, front).bound.Some?;
      FriCommitDomain(o, foldStep, init, front);
    }
  }

  /** When the start bound allows one FOLD_STEP per layer, the loop folds
      every layer: it ends at the start bound less FOLD_STEP per layer, after
      every layer's events, with the domain halved once per layer. */
  lemma FriCommitFolds(o: Oracle, foldStep: nat, init: FriState, layers: seq<FriLayerProof>)
    requires init.bound.Some? && init.alphas == [] && init.pairs == []
    requires |layers| * foldStep <= init.bound.value
    ensures var r := FriCommit(o, foldStep, init, layers);
      && r.bound == Some(init.bound.value - |layers| * foldStep)
      && r.log == init.log + FriEvents(layers)
      && r.domain.logSize == if |layers| <= init.domain.logSize then init.domain.logSize - |layers| else 0
  {
    FriCommitBound(o, foldStep, init, layers);
    FriCommitOnSuccess(o, foldStep, init, layers);
    FriCommitDomain(o, foldStep, init, layers);
  }

  /** When every layer but the last folds, the loop has absorbed and drawn
      for every layer, whatever happens to the last fold. */
  lemma LastLayerLog(o: Oracle, foldStep: nat, init: FriState, layers: seq<FriLayerProof>)
    requires init.bound.Some? && init.alphas == [] && init.pairs == []
    requires |layers| > 0
    requires FriCommit(o, foldStep, init, layers[..|layers| - 1]).bound.Some?
    ensures FriCommit(o, foldStep, init, layers).log == init.log + FriEvents(layers)
  {
    var front := layers[..|layers| - 1];
    FriCommitOnSuccess(o, foldStep, init, front);
  }

  /** When the layers need more folding than the start bound allows, the
      loop stops right after the first layer it cannot fold: the m-th, where
      m is the least count with m * FOLD_STEP above the start bound, having
      absorbed the commitments and drawn the challenges of the first m layers
      and nothing more. */
  lemma {:induction false} FriCommitFailure(o: Oracle, foldStep: nat, init: FriState, layers: seq<FriLayerProof>)
    requires init.bound.Some? && init.alphas == [] && init.pairs == []
    requires |layers| * foldStep > init.bound.value
    ensures exists m ::
      && 1 <= m <= |layers|
      && (m - 1) * foldStep <= init.bound.value < m * foldStep
      && FriCommit(o, foldStep, init, layers).log == init.log + FriEvents(layers[..m])
    decreases |layers|
  {
    var n := |layers|;
    var b := init.bound.value;
    var front := layers[..n - 1];
    FriCommitBound(o, foldStep, init, front);
    if (n - 1) * foldStep > b {
      FriCommitFailure(o, foldStep, init, front);
      var m :| && 1 <= m <= n - 1
               && (m - 1) * foldStep <= b < m * foldStep
               && FriCommit(o, foldStep, init, front).log == init.log + FriEvents(front[..m]);
      assert front[..m] == layers[..m];
      assert FriCommit(o, foldStep, init, layers) == FriCommit(o, foldStep, init, front);
    } else {
      LastLayerLog(o, foldStep, init, layers);
      assert layers[..n] == layers;
    }
  }
}
