/** generate_fs_hints: replays the verifier's Fiat-Shamir transcript for a
    Fibonacci STARK proof, checks the OODS identity, the number of FRI layers,
    the last-layer degree and the proof of work, and assembles the hint bundle
    and the FRI inputs.

    `FsRun` is the reference definition: the result and the channel log the
    generator produces, as a function of the proof, the AIR, the protocol
    constants and the log the channel started with. `GenerateFsHints` is the
    generator itself, updating a `Channel` step by step, and is proved to
    agree with `FsRun`; the lemmas after it state what `FsRun` guarantees. */
module FiatShamir {
  import opened FsTypes
  import opened Transcript
  import opened BoundsPipeline
  import opened FriLayers

  /** The outcome of one call, and the channel's log afterwards. */
  datatype Run = Run(result: Result<FSOutput, VerificationError>, log: seq<Event>)

  /** air.mask_points: one tree (the AIR has a single interaction), one list
      of points per trace column. */
  function MaskPoints(air: Air, point: CirclePoint): seq<seq<seq<CirclePoint>>>
  {
    [seq(|air.maskOffsets|, c requires 0 <= c < |air.maskOffsets| =>
       seq(|air.maskOffsets[c]|, k requires 0 <= k < |air.maskOffsets[c]| =>
         air.maskPoint(point, air.maskOffsets[c][k])))]
  }

  /** `sampled_points`: tree 0 holds the flattened trace mask points, tree 1
      the OODS point once for each of the four composition columns. */
  function SampledPoints(air: Air, oodsPoint: CirclePoint): seq<seq<seq<CirclePoint>>>
  {
    [Flatten(MaskPoints(air, oodsPoint)), Repeat([oodsPoint], 4)]
  }

  /** `vec![x; n]`. */
  function Repeat<T>(x: T, n: nat): (r: seq<T>)
    ensures |r| == n && forall i :: 0 <= i < n ==> r[i] == x
  {
    if n == 0 then [] else [x] + Repeat(x, n - 1)
  }

  /** What the commitment scheme records for a tree committed with column
      log sizes `logSizes`: each size extended by the blowup factor, the log
      size of the column's evaluation domain. */
  function Extended(logSizes: seq<nat>, blowup: nat): (r: seq<nat>)
    ensures |r| == |logSizes| && forall i :: 0 <= i < |r| ==> r[i] - blowup == logSizes[i]
  {
    seq(|logSizes|, i requires 0 <= i < |logSizes| => logSizes[i] + blowup)
  }

  /** The column log sizes the commitment scheme holds after both commits:
      the trace columns' sizes, then four composition columns of the
      composition degree bound, each extended by the blowup factor. */
  function SchemeColumnLogSizes(air: Air, p: Params): seq<seq<nat>>
  {
    [Extended(air.traceLogSizes, p.logBlowupFactor),
     Extended(Repeat(air.compositionLogDegreeBound, 4), p.logBlowupFactor)]
  }

  /** How many points are sampled in each column. */
  function PointCounts(points: seq<seq<seq<CirclePoint>>>): seq<seq<nat>>
  {
    seq(|points|, t requires 0 <= t < |points| =>
      seq(|points[t]|, c requires 0 <= c < |points[t]| => |points[t][c]|))
  }

  /** What the AIR must satisfy for the code not to panic: the mask of the
      first trace column has the three points the assertions read, and there
      is one mask entry per trace column for the column-wise zip. */
  predicate AirShape(air: Air)
  {
    && |air.maskOffsets| >= 1
    && |air.maskOffsets[0]| >= 3
    && |air.traceLogSizes| == |air.maskOffsets|
  }

  /** Some sampled column's bound is at least the circle-to-line fold step,
      so fold_to_line on the largest bound does not underflow. */
  predicate CanFoldToLine(air: Air, p: Params)
    requires AirShape(air)
  {
    || air.compositionLogDegreeBound >= p.circleToLineFoldStep
    || exists c :: 0 <= c < |air.traceLogSizes| && |air.maskOffsets[c]| > 0 &&
         air.traceLogSizes[c] >= p.circleToLineFoldStep
  }

  /** The sampled-values layout the Fibonacci AIR's sampled_values_to_mask
      accepts: a trace tree whose first column has three values, and a
      composition tree of four columns with one value each. */
  predicate SampledValuesShape(sv: seq<seq<seq<QM31>>>)
  {
    && |sv| == 2
    && |sv[0]| >= 1 && |sv[0][0]| == 3
    && |sv[1]| == 4 && (forall i :: 0 <= i < 4 ==> |sv[1][i]| == 1)
  }

  /** Every panic path of the code excluded: two commitments to index, the
      AIR's shape, a foldable largest bound, the sampled-values layout, and a
      last-layer polynomial with a first coefficient. */
  predicate PanicFree(p: Params, air: Air, proof: StarkProof)
  {
    && |proof.commitments| >= 2
    && AirShape(air)
    && CanFoldToLine(air, p)
    && SampledValuesShape(proof.sampledValues)
    && |proof.lastLayerPoly| > 0
  }

  /** The trace mask values: the trace tree of the sampled values. */
  function TraceMask(sv: seq<seq<seq<QM31>>>): seq<seq<seq<QM31>>>
    requires SampledValuesShape(sv)
  {
    [sv[0]]
  }

  /** The composition value the proof claims at the OODS point, recombined
      from its four partial evaluations. */
  function CompositionOodsValue(air: Air, sv: seq<seq<seq<QM31>>>): QM31
    requires SampledValuesShape(sv)
  {
    air.fromPartialEvals([sv[1][0][0], sv[1][1][0], sv[1][2][0], sv[1][3][0]])
  }

  /** The composition hint: the boundary quotient from the first trace mask
      value, the step quotient from all three. */
  function CompositionHintAt(air: Air, oodsPoint: CirclePoint, traceMask: seq<seq<seq<QM31>>>): CompositionHint
    requires |traceMask| >= 1 && |traceMask[0]| >= 1 && |traceMask[0][0]| >= 1
  {
    CompositionHint([air.boundaryQuotient(oodsPoint, traceMask[0][0][..1]),
                     air.stepQuotient(oodsPoint, traceMask[0][0])])
  }

  /** How many points are sampled in each column, whatever the OODS point:
      each trace column's mask size, and one point per composition column. */
  function SampledCounts(air: Air): seq<seq<nat>>
  {
    [seq(|air.maskOffsets|, c requires 0 <= c < |air.maskOffsets| => |air.maskOffsets[c]|), [1, 1, 1, 1]]
  }

  /** The sampled points have the counts `SampledCounts` for every OODS point. */
  lemma SampledPointsCounts(air: Air, oodsPoint: CirclePoint)
    ensures PointCounts(SampledPoints(air, oodsPoint)) == SampledCounts(air)
  {
    var m := MaskPoints(air, oodsPoint);
    assert Flatten(m) == m[0] by {
      assert m[1..] == [];
    }
    var pc := PointCounts(SampledPoints(air, oodsPoint));
    var sc := SampledCounts(air);
    assert pc[0] == sc[0];
    assert pc[1] == sc[1];
  }

  lemma BoundsShape(air: Air, p: Params)
    requires AirShape(air)
    ensures SameShape(SchemeColumnLogSizes(air, p), SampledCounts(air))
    ensures AtLeastBlowup(SchemeColumnLogSizes(air, p), p.logBlowupFactor)
  {
  }

  /** The sampled points as the code re-checks them: the trace tree holds
      the first column's mask points, the composition tree the OODS point
      once per column. */
  lemma SampledPointsLayout(air: Air, oodsPoint: CirclePoint)
    requires AirShape(air)
    ensures var sp := SampledPoints(air, oodsPoint);
      && |sp| == 2 && |sp[0]| == |air.maskOffsets| && |sp[1]| == 4
      && (forall k :: 0 <= k < |air.maskOffsets[0]| ==> sp[0][0][k] == MaskPoints(air, oodsPoint)[0][0][k])
      && (forall i :: 0 <= i < 4 ==> sp[1][i] == [oodsPoint])
  {
    var m := MaskPoints(air, oodsPoint);
    assert Flatten(m) == m[0] by {
      assert m[1..] == [];
    }
  }

  /** The composition bound is always among the bounds, so they are never
      empty; when some sampled column is large enough for the circle-to-line
      fold, so is the largest bound. */
  lemma LargestBound(air: Air, p: Params)
    requires AirShape(air)
    ensures var b := DegreeBounds(SchemeColumnLogSizes(air, p), SampledCounts(air), p.logBlowupFactor);
      && |b| > 0
      && (CanFoldToLine(air, p) ==> b[0] >= p.circleToLineFoldStep)
  {
    BoundsShape(air, p);
    var sizes := SchemeColumnLogSizes(air, p);
    var counts := SampledCounts(air);
    var bl := p.logBlowupFactor;
    DegreeBoundsSpec(sizes, counts, bl);
    var b := DegreeBounds(sizes, counts, bl);
    var comp := air.compositionLogDegreeBound;
    assert counts[1][0] > 0 && comp == sizes[1][0] - bl;
    assert comp in b;
    if CanFoldToLine(air, p) && comp < p.circleToLineFoldStep {
      var c :| 0 <= c < |air.traceLogSizes| && |air.maskOffsets[c]| > 0 &&
        air.traceLogSizes[c] >= p.circleToLineFoldStep;
      assert counts[0][c] > 0 && air.traceLogSizes[c] == sizes[0][c] - bl;
      assert air.traceLogSizes[c] in b;
    }
  }

  /** The `bounds` list of the generator: never empty (the composition
      columns always have a sampled point), strictly descending, and its
      first, largest element can be folded onto the line. */
  function Bounds(air: Air, p: Params): (bounds: seq<nat>)
    requires AirShape(air)
    ensures |bounds| > 0 && StrictlyDescending(bounds)
    ensures CanFoldToLine(air, p) ==> bounds[0] >= p.circleToLineFoldStep
  {
    BoundsShape(air, p);
    var sizes := SchemeColumnLogSizes(air, p);
    var counts := SampledCounts(air);
    DegreeBoundsSpec(sizes, counts, p.logBlowupFactor);
    LargestBound(air, p);
    DegreeBounds(sizes, counts, p.logBlowupFactor)
  }

  /** `bounds` holds exactly the bounds `log_size - LOG_BLOWUP_FACTOR` of the
      columns that have sampled points (every composition column, and each
      trace column whose mask is not empty); as the scheme extended each
      committed size by the blowup, these are the composition degree bound
      and those trace columns' sizes. It is strictly descending, so its
      first element is the largest. */
  lemma BoundsSpec(air: Air, p: Params)
    requires AirShape(air)
    ensures var b := Bounds(air, p);
      forall x :: x in b <==>
        || x == air.compositionLogDegreeBound
        || exists c :: 0 <= c < |air.traceLogSizes| && |air.maskOffsets[c]| > 0 && x == air.traceLogSizes[c]
    ensures var b := Bounds(air, p); forall x :: x in b ==> x <= b[0]
  {
    BoundsShape(air, p);
    var sizes := SchemeColumnLogSizes(air, p);
    var counts := SampledCounts(air);
    var bl := p.logBlowupFactor;
    DegreeBoundsSpec(sizes, counts, bl);
    var b := DegreeBounds(sizes, counts, bl);
    forall x ensures x in b <==>
      || x == air.compositionLogDegreeBound
      || exists c :: 0 <= c < |air.traceLogSizes| && |air.maskOffsets[c]| > 0 && x == air.traceLogSizes[c]
    {
      if x == air.compositionLogDegreeBound {
        assert counts[1][0] > 0 && x == sizes[1][0] - bl;
      }
      if exists c :: 0 <= c < |air.traceLogSizes| && |air.maskOffsets[c]| > 0 && x == air.traceLogSizes[c] {
        var c :| 0 <= c < |air.traceLogSizes| && |air.maskOffsets[c]| > 0 && x == air.traceLogSizes[c];
        assert counts[0][c] > 0 && x == sizes[0][c] - bl;
      }
      if x in b {
        var t, c :| 0 <= t < |sizes| && 0 <= c < |sizes[t]| && counts[t][c] > 0 && x == sizes[t][c] - bl;
        if t == 1 {
          assert x == air.compositionLogDegreeBound;
        }
      }
    }
  }

  /** The challenges drawn before the FRI layers, each with its replay hint. */
  datatype Draws = Draws(randomCoeff: FeltDraw, oods: PointDraw, randomCoeff2: FeltDraw, circlePolyAlpha: FeltDraw)

  /** The reference definition of generate_fs_hints, from a channel whose log
      is `log0`. First stage: the two commitments, the first random
      coefficient, the OODS point and the OODS check. */
  function FsRun(p: Params, air: Air, o: Oracle, proof: StarkProof, log0: seq<Event>): Run
    requires PanicFree(p, air, proof)
  {
    var sv := proof.sampledValues;
    var logRc := log0 + [AbsorbDigest(proof.commitments[0])];
    var rc := o.felt(logRc);
    var logOods := logRc + [DrawFelt] + [AbsorbDigest(proof.commitments[1])];
    var oods := o.point(logOods);
    if CompositionOodsValue(air, sv) != air.evalCompositionAt(oods.point, TraceMask(sv), rc.value) then
      Run(Err(OodsNotMatching), logOods + [DrawPoint])
    else
      FsFri(p, air, o, proof, logOods + [DrawPoint], rc, oods)
  }

  /** Second stage, after a passed OODS check on a channel whose log is
      `log`: all sampled values, the second random coefficient, the
      circle-to-line folding challenge, the FRI layers and the two FRI checks. */
  function FsFri(p: Params, air: Air, o: Oracle, proof: StarkProof, log: seq<Event>, rc: FeltDraw, oods: PointDraw): Run
    requires PanicFree(p, air, proof)
  {
    var logRc2 := log + [AbsorbFelts(Flatten(Flatten(proof.sampledValues)))];
    var rc2 := o.felt(logRc2);
    var logAlpha := logRc2 + [DrawFelt];
    var alpha := o.felt(logAlpha);
    var bounds := Bounds(air, p);
    var start := FoldToLine(bounds[0], p.circleToLineFoldStep);
    var init := FriState(logAlpha + [DrawFelt], [], [], Some(start), LineDomain(start + p.logBlowupFactor));
    var fri := FriCommit(o, p.foldStep, init, proof.innerLayers);
    if fri.bound != Some(p.logLastLayerDegreeBound) then
      Run(Err(Fri(InvalidNumFriLayers)), fri.log)
    else if |proof.lastLayerPoly| > Pow2(p.logLastLayerDegreeBound) then
      Run(Err(Fri(LastLayerDegreeInvalid)), fri.log)
    else
      FsFinish(p, air, o, proof, Draws(rc, oods, rc2, alpha), bounds, fri)
  }

  /** The two bundles, assembled from the proof, the draws and the FRI
      layers' results. */
  function Bundle(p: Params, air: Air, proof: StarkProof, d: Draws, bounds: seq<nat>, fri: FriState,
                  columnLogSizes: seq<nat>, powHint: PoWHint, q: QueriesDraw): FSOutput
    requires PanicFree(p, air, proof) && |bounds| > 0
  {
    var sv := proof.sampledValues;
    FSOutput(
      FiatShamirHints(
        [proof.commitments[0], proof.commitments[1]],
        d.randomCoeff.hint,
        d.oods.hint,
        [sv[0][0][0], sv[0][0][1], sv[0][0][2]],
        [sv[1][0][0], sv[1][1][0], sv[1][2][0], sv[1][3][0]],
        CompositionHintAt(air, d.oods.point, TraceMask(sv)),
        d.randomCoeff2.hint,
        d.circlePolyAlpha.hint,
        fri.pairs,
        proof.lastLayerPoly[0],
        powHint,
        q.hint),
      FriInput(
        p.logBlowupFactor,
        bounds[0],
        columnLogSizes,
        SchemeColumnLogSizes(air, p),
        SampledPoints(air, d.oods.point),
        sv,
        d.randomCoeff2.value,
        d.circlePolyAlpha.value,
        fri.alphas,
        fri.domain,
        q.queries))
  }

  /** Last stage, after the FRI layers `fri` passed both checks: the
      last-layer polynomial, the proof of work, the queries, and the bundles. */
  function FsFinish(p: Params, air: Air, o: Oracle, proof: StarkProof, d: Draws, bounds: seq<nat>, fri: FriState): Run
    requires PanicFree(p, air, proof)
    requires StrictlyDescending(bounds) && |bounds| > 0
  {
    var sv := proof.sampledValues;
    var logPow := fri.log + [AbsorbFelts(proof.lastLayerPoly)];
    var digest := o.digest(logPow);
    if !o.powValid(digest, proof.nonce, p.powBits) then
      Run(Err(ProofOfWork), logPow)
    else
      var logQueries := logPow + [AbsorbNonce(proof.nonce)];
      ColumnLogSizesSpec(bounds, p.logBlowupFactor);
      var columnLogSizes := ColumnLogSizes(bounds, p.logBlowupFactor);
      var q := o.queries(logQueries, columnLogSizes[0], p.nQueries);
      var out := Bundle(p, air, proof, d, bounds, fri, columnLogSizes, PoWHint(digest, proof.nonce, p.powBits), q);
      Run(Ok(out), logQueries + [DrawQueries(columnLogSizes[0], p.nQueries)])
  }

  /** The second stage, with the FRI layer loop's start state and the two
      draws before it written out. */
  lemma FsFriUnfold(p: Params, air: Air, o: Oracle, proof: StarkProof, log: seq<Event>, rc: FeltDraw, oods: PointDraw)
    requires PanicFree(p, air, proof)
    ensures
      var logRc2 := log + [AbsorbFelts(Flatten(Flatten(proof.sampledValues)))];
      var start := FoldToLine(Bounds(air, p)[0], p.circleToLineFoldStep);
      var fri := FriCommit(o, p.foldStep, FriState(logRc2 + [DrawFelt, DrawFelt], [], [], Some(start),
                                                   LineDomain(start + p.logBlowupFactor)), proof.innerLayers);
      FsFri(p, air, o, proof, log, rc, oods) ==
        if fri.bound != Some(p.logLastLayerDegreeBound) then Run(Err(Fri(InvalidNumFriLayers)), fri.log)
        else if |proof.lastLayerPoly| > Pow2(p.logLastLayerDegreeBound) then Run(Err(Fri(LastLayerDegreeInvalid)), fri.log)
        else FsFinish(p, air, o, proof, Draws(rc, oods, o.felt(logRc2), o.felt(logRc2 + [DrawFelt])), Bounds(air, p), fri)
  {
    var logRc2 := log + [AbsorbFelts(Flatten(Flatten(proof.sampledValues)))];
    assert logRc2 + [DrawFelt] + [DrawFelt] == logRc2 + [DrawFelt, DrawFelt];
  }

  /** The last stage: a failed proof of work leaves the log after the
      last-layer polynomial, a passed one adds the nonce and the query draw
      over the largest column log size. */
  lemma FsFinishUnfold(p: Params, air: Air, o: Oracle, proof: StarkProof, d: Draws, bounds: seq<nat>, fri: FriState)
    requires PanicFree(p, air, proof)
    requires StrictlyDescending(bounds) && |bounds| > 0
    ensures var logPow := fri.log + [AbsorbFelts(proof.lastLayerPoly)];
      var run := FsFinish(p, air, o, proof, d, bounds, fri);
      && (!o.powValid(o.digest(logPow), proof.nonce, p.powBits) ==> run == Run(Err(ProofOfWork), logPow))
      && (o.powValid(o.digest(logPow), proof.nonce, p.powBits) ==>
            run == Run(Ok(Bundle(p, air, proof, d, bounds, fri, ColumnLogSizes(bounds, p.logBlowupFactor),
                                 PoWHint(o.digest(logPow), proof.nonce, p.powBits),
                                 o.queries(logPow + [AbsorbNonce(proof.nonce)], bounds[0] + p.logBlowupFactor, p.nQueries))),
                       logPow + [AbsorbNonce(proof.nonce), DrawQueries(bounds[0] + p.logBlowupFactor, p.nQueries)]))
  {
    ColumnLogSizesSpec(bounds, p.logBlowupFactor);
    var logPow := fri.log + [AbsorbFelts(proof.lastLayerPoly)];
    assert logPow + [AbsorbNonce(proof.nonce)] + [DrawQueries(bounds[0] + p.logBlowupFactor, p.nQueries)] ==
      logPow + [AbsorbNonce(proof.nonce), DrawQueries(bounds[0] + p.logBlowupFactor, p.nQueries)];
  }

  /** The last stage when the proof of work passes, with the log it is
      checked against and the bundles passed in. */
  lemma FsFinishOk(p: Params, air: Air, o: Oracle, proof: StarkProof, d: Draws, bounds: seq<nat>, fri: FriState,
                   logPow: seq<Event>, out: FSOutput)
    requires PanicFree(p, air, proof)
    requires StrictlyDescending(bounds) && |bounds| > 0
    requires logPow == fri.log + [AbsorbFelts(proof.lastLayerPoly)]
    requires o.powValid(o.digest(logPow), proof.nonce, p.powBits)
    requires out == Bundle(p, air, proof, d, bounds, fri, ColumnLogSizes(bounds, p.logBlowupFactor),
                           PoWHint(o.digest(logPow), proof.nonce, p.powBits),
                           o.queries(logPow + [AbsorbNonce(proof.nonce)], bounds[0] + p.logBlowupFactor, p.nQueries))
    ensures FsFinish(p, air, o, proof, d, bounds, fri) ==
      Run(Ok(out), logPow + [AbsorbNonce(proof.nonce), DrawQueries(bounds[0] + p.logBlowupFactor, p.nQueries)])
  {
    FsFinishUnfold(p, air, o, proof, d, bounds, fri);
  }

  /** The loop over the FRI inner layers: absorb each layer's commitment,
      draw its folding challenge, record both, and fold the bound; stops with
      `None` at the first bound that cannot be folded. */
  method CommitFriLayers(channel: Channel, layers: seq<FriLayerProof>, foldStep: nat, startBound: nat, startDomain: LineDomain)
    returns (foldingAlphas: seq<QM31>, friCommitmentAndFoldingHints: seq<(Hash, DrawHints)>,
             layerBound: Option<nat>, layerDomain: LineDomain)
    modifies channel
    ensures FriState(channel.log, foldingAlphas, friCommitmentAndFoldingHints, layerBound, layerDomain) ==
      FriCommit(channel.oracle, foldStep, FriState(old(channel.log), [], [], Some(startBound), startDomain), layers)
  {
    ghost var init := FriState(channel.log, [], [], Some(startBound), startDomain);
    foldingAlphas, friCommitmentAndFoldingHints, layerBound, layerDomain := [], [], Some(startBound), startDomain;
    var i := 0;
    while i < |layers|
      invariant 0 <= i <= |layers|
      invariant layerBound.Some?
      invariant FriCommit(channel.oracle, foldStep, init, layers[..i]) ==
        FriState(channel.log, foldingAlphas, friCommitmentAndFoldingHints, layerBound, layerDomain)
    {
      var layer := layers[i];
      channel.MixDigest(layer.commitment);
      var foldingAlpha, foldingAlphaHint := channel.DrawFeltAndHints();
      foldingAlphas := foldingAlphas + [foldingAlpha];
      friCommitmentAndFoldingHints := friCommitmentAndFoldingHints + [(layer.commitment, foldingAlphaHint)];
      assert layers[..i + 1][..i] == layers[..i];
      layerBound := Fold(layerBound.value, foldStep);
      layerDomain := Double(layerDomain);
      if layerBound.None? {
        FriCommitStopped(channel.oracle, foldStep, init, layers, i + 1);
        return;
      }
      i := i + 1;
    }
    assert layers[..i] == layers;
  }

  /** generate_fs_hints, on a live channel: the first stage is done here,
      the rest by `OpenFri` and `FinishHints`. */
  method GenerateFsHints(proof: StarkProof, channel: Channel, air: Air, p: Params)
    returns (r: Result<FSOutput, VerificationError>)
    requires PanicFree(p, air, proof)
    modifies channel
    ensures Run(r, channel.log) == FsRun(p, air, channel.oracle, proof, old(channel.log))
  {
    var sv := proof.sampledValues;

    // Read the trace commitment.
    channel.MixDigest(proof.commitments[0]);
    var randomCoeff, randomCoeffHint := channel.DrawFeltAndHints();

    // Read the composition polynomial commitment.
    channel.MixDigest(proof.commitments[1]);

    // Draw the OODS point.
    var oodsPoint, oodsHint := channel.DrawPointWithHint();
    var schemeSizes := SchemeColumnLogSizes(air, p);
    var sampledPoints := SampledPoints(air, oodsPoint);
    // The reorganisation checked by assert_eq! in the code.
    SampledPointsLayout(air, oodsPoint);

    var traceOodsValues := TraceMask(sv);
    var compositionOodsValue := CompositionOodsValue(air, sv);
    if compositionOodsValue != air.evalCompositionAt(oodsPoint, traceOodsValues, randomCoeff) {
      return Err(OodsNotMatching);
    }
    r := OpenFri(proof, channel, air, p, FeltDraw(randomCoeff, randomCoeffHint), PointDraw(oodsPoint, oodsHint),
                 schemeSizes, sampledPoints);
  }

  /** The middle of generate_fs_hints, after a passed OODS check: mix in
      the sampled values, draw the second random coefficient, compute the
      degree bounds, draw the circle-to-line challenge, commit to the FRI
      layers and check their number and the last layer's degree. */
  method OpenFri(proof: StarkProof, channel: Channel, air: Air, p: Params, rc: FeltDraw, oods: PointDraw,
                 schemeSizes: seq<seq<nat>>, sampledPoints: seq<seq<seq<CirclePoint>>>)
    returns (r: Result<FSOutput, VerificationError>)
    requires PanicFree(p, air, proof)
    requires schemeSizes == SchemeColumnLogSizes(air, p) && sampledPoints == SampledPoints(air, oods.point)
    modifies channel
    ensures Run(r, channel.log) == FsFri(p, air, channel.oracle, proof, old(channel.log), rc, oods)
  {
    var sv := proof.sampledValues;
    channel.MixFelts(Flatten(Flatten(sv)));
    var randomCoeff2, randomCoeffHint2 := channel.DrawFeltAndHints();

    BoundsShape(air, p);
    SampledPointsCounts(air, oods.point);
    var bounds := DegreeBounds(schemeSizes, PointCounts(sampledPoints), p.logBlowupFactor);
    assert bounds == Bounds(air, p);
    var maxColumnBound := bounds[0];

    // Circle polynomials can all be folded with the same alpha.
    var circlePolyAlpha, circlePolyAlphaHint := channel.DrawFeltAndHints();

    var layerBound: nat := FoldToLine(maxColumnBound, p.circleToLineFoldStep);
    var layerDomain := LineDomain(layerBound + p.logBlowupFactor);
    ghost var logRc2 := old(channel.log) + [AbsorbFelts(Flatten(Flatten(sv)))];
    assert channel.log == logRc2 + [DrawFelt, DrawFelt];
    var foldingAlphas, friCommitmentAndFoldingHints, finalBound, lastLayerDomain :=
      CommitFriLayers(channel, proof.innerLayers, p.foldStep, layerBound, layerDomain);
    FsFriUnfold(p, air, channel.oracle, proof, old(channel.log), rc, oods);
    ghost var fri := FriCommit(channel.oracle, p.foldStep,
      FriState(logRc2 + [DrawFelt, DrawFelt], [], [], Some(layerBound), layerDomain), proof.innerLayers);
    assert fri == FriState(channel.log, foldingAlphas, friCommitmentAndFoldingHints, finalBound, lastLayerDomain);
    if finalBound != Some(p.logLastLayerDegreeBound) {
      return Err(Fri(InvalidNumFriLayers));
    }
    if |proof.lastLayerPoly| > Pow2(p.logLastLayerDegreeBound) {
      return Err(Fri(LastLayerDegreeInvalid));
    }
    var draws := Draws(rc, oods, FeltDraw(randomCoeff2, randomCoeffHint2), FeltDraw(circlePolyAlpha, circlePolyAlphaHint));
    r := FinishHints(proof, channel, air, p, draws, bounds, foldingAlphas, friCommitmentAndFoldingHints, lastLayerDomain);
  }

  /** The end of generate_fs_hints, after both FRI checks passed: mix in the
      last-layer polynomial, check the proof of work, draw the queries and
      assemble the two bundles. */
  method FinishHints(proof: StarkProof, channel: Channel, air: Air, p: Params, d: Draws, bounds: seq<nat>,
                     foldingAlphas: seq<QM31>, friCommitmentAndFoldingHints: seq<(Hash, DrawHints)>,
                     lastLayerDomain: LineDomain)
    returns (r: Result<FSOutput, VerificationError>)
    requires PanicFree(p, air, proof)
    requires StrictlyDescending(bounds) && |bounds| > 0
    modifies channel
    ensures
      var fri := FriState(old(channel.log), foldingAlphas, friCommitmentAndFoldingHints,
                          Some(p.logLastLayerDegreeBound), lastLayerDomain);
      Run(r, channel.log) == FsFinish(p, air, channel.oracle, proof, d, bounds, fri)
  {
    var fri := FriState(channel.log, foldingAlphas, friCommitmentAndFoldingHints,
                        Some(p.logLastLayerDegreeBound), lastLayerDomain);
    channel.MixFelts(proof.lastLayerPoly);
    var powHint := PoWHint(channel.Digest(), proof.nonce, p.powBits);
    var powOk := channel.VerifyProofOfWork(p.powBits, proof.nonce);
    if !powOk {
      return Err(ProofOfWork);
    }

    ColumnLogSizesSpec(bounds, p.logBlowupFactor);
    var columnLogSizes := ColumnLogSizes(bounds, p.logBlowupFactor);
    var queries, queriesHints := channel.GenerateQueriesWithHints(columnLogSizes[0], p.nQueries);
    r := Ok(Bundle(p, air, proof, d, bounds, fri, columnLogSizes, powHint, QueriesDraw(queries, queriesHints)));
  }
}
