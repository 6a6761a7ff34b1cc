/** What generate_fs_hints guarantees, stated over its reference definition
    `FsRun` for every proof, every AIR of the right shape, every choice of the
    protocol constants and every behaviour of the hidden hash: the channel
    events happen in the order the verifier replays them, each check fails
    with its own error and in a fixed order, each hint is the value the
    channel yields at its own point of the transcript, and the FRI inputs
    follow from the degree-bound pipeline and the layer-count law. */
module FsProperties {
  import opened FsTypes
  import opened Transcript
  import opened BoundsPipeline
  import opened FriLayers
  import opened FiatShamir

  // ---------------------------------------------------------------------
  // The transcript, written out as event lists.

  /** The first random coefficient: drawn right after the trace commitment. */
  function FirstCoeff(o: Oracle, proof: StarkProof, log0: seq<Event>): FeltDraw
    requires |proof.commitments| >= 2
  {
    o.felt(log0 + [AbsorbDigest(proof.commitments[0])])
  }

  /** The OODS point: drawn right after the composition commitment. */
  function OodsDraw(o: Oracle, proof: StarkProof, log0: seq<Event>): PointDraw
    requires |proof.commitments| >= 2
  {
    o.point(log0 + [AbsorbDigest(proof.commitments[0]), DrawFelt, AbsorbDigest(proof.commitments[1])])
  }

  /** The log once the OODS point is drawn. */
  function LogAfterOods(proof: StarkProof, log0: seq<Event>): seq<Event>
    requires |proof.commitments| >= 2
  {
    log0 + [AbsorbDigest(proof.commitments[0]), DrawFelt, AbsorbDigest(proof.commitments[1]), DrawPoint]
  }

  /** The log the FRI layer loop starts from: the sampled values absorbed,
      then the second random coefficient and the circle-to-line challenge. */
  function LogBeforeLayers(proof: StarkProof, log0: seq<Event>): seq<Event>
    requires |proof.commitments| >= 2
  {
    LogAfterOods(proof, log0) + [AbsorbFelts(Flatten(Flatten(proof.sampledValues))), DrawFelt, DrawFelt]
  }

  /** The log the proof of work is checked against: every layer folded, then
      the last-layer coefficients absorbed. */
  function LogBeforePow(proof: StarkProof, log0: seq<Event>): seq<Event>
    requires |proof.commitments| >= 2
  {
    LogBeforeLayers(proof, log0) + FriEvents(proof.innerLayers) + [AbsorbFelts(proof.lastLayerPoly)]
  }

  /** The composition value of the proof agrees with the AIR's recomputation
      at the OODS point under the first random coefficient. */
  predicate OodsHolds(p: Params, air: Air, o: Oracle, proof: StarkProof, log0: seq<Event>)
    requires PanicFree(p, air, proof)
  {
    CompositionOodsValue(air, proof.sampledValues) ==
      air.evalCompositionAt(OodsDraw(o, proof, log0).point, TraceMask(proof.sampledValues), FirstCoeff(o, proof, log0).value)
  }

  /** The bound the layer loop starts from: the largest column bound folded
      onto the line. */
  function StartBound(p: Params, air: Air): nat
    requires AirShape(air) && CanFoldToLine(air, p)
  {
    FoldToLine(Bounds(air, p)[0], p.circleToLineFoldStep)
  }

  /** The layer-count law: one FOLD_STEP per layer fits in the start bound
      and ends exactly at LOG_LAST_LAYER_DEGREE_BOUND. */
  predicate LayerCountOk(p: Params, start: nat, n: nat)
  {
    n * p.foldStep <= start && start - n * p.foldStep == p.logLastLayerDegreeBound
  }

  /** The proof of work passes against the digest after the last layer. */
  predicate PowHolds(p: Params, o: Oracle, proof: StarkProof, log0: seq<Event>)
    requires |proof.commitments| >= 2
  {
    o.powValid(o.digest(LogBeforePow(proof, log0)), proof.nonce, p.powBits)
  }

  // ---------------------------------------------------------------------
  // Unfolding the stages of the reference definition.

  function LayerStart(p: Params, air: Air, o: Oracle, proof: StarkProof, log0: seq<Event>): FriState
    requires PanicFree(p, air, proof)
  {
    var start := StartBound(p, air);
    FriState(LogBeforeLayers(proof, log0), [], [], Some(start), LineDomain(start + p.logBlowupFactor))
  }

  function DrawsOf(o: Oracle, proof: StarkProof, log0: seq<Event>): Draws
    requires |proof.commitments| >= 2
  {
    var logRc2 := LogAfterOods(proof, log0) + [AbsorbFelts(Flatten(Flatten(proof.sampledValues)))];
    Draws(FirstCoeff(o, proof, log0), OodsDraw(o, proof, log0), o.felt(logRc2), o.felt(logRc2 + [DrawFelt]))
  }

  lemma OodsStage(p: Params, air: Air, o: Oracle, proof: StarkProof, log0: seq<Event>)
    requires PanicFree(p, air, proof)
    ensures !OodsHolds(p, air, o, proof, log0) ==>
      FsRun(p, air, o, proof, log0) == Run(Err(OodsNotMatching), LogAfterOods(proof, log0))
    ensures OodsHolds(p, air, o, proof, log0) ==>
      FsRun(p, air, o, proof, log0) ==
        FsFri(p, air, o, proof, LogAfterOods(proof, log0), FirstCoeff(o, proof, log0), OodsDraw(o, proof, log0))
  {
    var c := proof.commitments;
    assert log0 + [AbsorbDigest(c[0])] + [DrawFelt] + [AbsorbDigest(c[1])] ==
      log0 + [AbsorbDigest(c[0]), DrawFelt, AbsorbDigest(c[1])];
    assert log0 + [AbsorbDigest(c[0])] + [DrawFelt] + [AbsorbDigest(c[1])] + [DrawPoint] == LogAfterOods(proof, log0);
  }

  lemma FriStage(p: Params, air: Air, o: Oracle, proof: StarkProof, log0: seq<Event>)
    requires PanicFree(p, air, proof)
    ensures var fri := FriCommit(o, p.foldStep, LayerStart(p, air, o, proof, log0), proof.innerLayers);
      FsFri(p, air, o, proof, LogAfterOods(proof, log0), FirstCoeff(o, proof, log0), OodsDraw(o, proof, log0)) ==
        if fri.bound != Some(p.logLastLayerDegreeBound) then Run(Err(Fri(InvalidNumFriLayers)), fri.log)
        else if |proof.lastLayerPoly| > Pow2(p.logLastLayerDegreeBound) then Run(Err(Fri(LastLayerDegreeInvalid)), fri.log)
        else FsFinish(p, air, o, proof, DrawsOf(o, proof, log0), Bounds(air, p), fri)
  {
    FsFriUnfold(p, air, o, proof, LogAfterOods(proof, log0), FirstCoeff(o, proof, log0), OodsDraw(o, proof, log0));
    var flat := Flatten(Flatten(proof.sampledValues));
    var l := LogAfterOods(proof, log0);
    assert l + [AbsorbFelts(flat)] + [DrawFelt, DrawFelt] == LogBeforeLayers(proof, log0);
  }

  /** When every layer folds, the proof of work is checked against the log
      after the layer events and the last-layer coefficients. */
  lemma PowLog(p: Params, air: Air, o: Oracle, proof: StarkProof, log0: seq<Event>)
    requires PanicFree(p, air, proof)
    requires FriCommit(o, p.foldStep, LayerStart(p, air, o, proof, log0), proof.innerLayers).bound.Some?
    ensures FriCommit(o, p.foldStep, LayerStart(p, air, o, proof, log0), proof.innerLayers).log
              + [AbsorbFelts(proof.lastLayerPoly)] == LogBeforePow(proof, log0)
  {
    FriCommitOnSuccess(o, p.foldStep, LayerStart(p, air, o, proof, log0), proof.innerLayers);
  }

  /** When the layer count is right, every layer folds: the loop ends at
      LOG_LAST_LAYER_DEGREE_BOUND, after every layer's commitment and
      challenge, with the first layer's domain halved once per layer. */
  lemma LayersFold(p: Params, air: Air, o: Oracle, proof: StarkProof, log0: seq<Event>)
    requires PanicFree(p, air, proof)
    requires LayerCountOk(p, StartBound(p, air), |proof.innerLayers|)
    ensures var fri := FriCommit(o, p.foldStep, LayerStart(p, air, o, proof, log0), proof.innerLayers);
      var start := StartBound(p, air);
      var n := |proof.innerLayers|;
      && fri.bound == Some(p.logLastLayerDegreeBound)
      && fri.log == LogBeforeLayers(proof, log0) + FriEvents(proof.innerLayers)
      && fri.domain.logSize == if n <= start + p.logBlowupFactor then start + p.logBlowupFactor - n else 0
  {
    FriCommitFolds(o, p.foldStep, LayerStart(p, air, o, proof, log0), proof.innerLayers);
  }

  // ---------------------------------------------------------------------
  // The outcome of a run, and its transcript.

  /** The short-circuit order of the checks, as an independent reference:
      the error of the first check that fails, or None when all pass. */
  function Verdict(p: Params, air: Air, o: Oracle, proof: StarkProof, log0: seq<Event>): Option<VerificationError>
    requires PanicFree(p, air, proof)
  {
    if !OodsHolds(p, air, o, proof, log0) then Some(OodsNotMatching)
    else if !LayerCountOk(p, StartBound(p, air), |proof.innerLayers|) then
      Some(Fri(InvalidNumFriLayers))
    else if |proof.lastLayerPoly| > Pow2(p.logLastLayerDegreeBound) then Some(Fri(LastLayerDegreeInvalid))
    else if !PowHolds(p, o, proof, log0) then Some(ProofOfWork)
    else None
  }

  /** A wrong OODS value fails the run right after the OODS point is drawn. */
  lemma RunOnOodsFailure(p: Params, air: Air, o: Oracle, proof: StarkProof, log0: seq<Event>)
    requires PanicFree(p, air, proof) && Verdict(p, air, o, proof, log0) == Some(OodsNotMatching)
    ensures FsRun(p, air, o, proof, log0) == Run(Err(OodsNotMatching), LogAfterOods(proof, log0))
  {
    OodsStage(p, air, o, proof, log0);
  }

  /** A wrong layer count: when the layers need more folding than the start
      bound allows, the run stops after the first layer it cannot fold,
      having absorbed and drawn for exactly the layers up to it; otherwise
      every layer folded and the bound simply ended off
      LOG_LAST_LAYER_DEGREE_BOUND. */
  lemma RunOnLayerCountFailure(p: Params, air: Air, o: Oracle, proof: StarkProof, log0: seq<Event>)
    requires PanicFree(p, air, proof) && Verdict(p, air, o, proof, log0) == Some(Fri(InvalidNumFriLayers))
    ensures FsRun(p, air, o, proof, log0).result == Err(Fri(InvalidNumFriLayers))
    ensures var log := FsRun(p, air, o, proof, log0).log;
      var n := |proof.innerLayers|;
      var start := StartBound(p, air);
      && (n * p.foldStep <= start ==> log == LogBeforeLayers(proof, log0) + FriEvents(proof.innerLayers))
      && (n * p.foldStep > start ==>
            exists m ::
              && 1 <= m <= n
              && (m - 1) * p.foldStep <= start < m * p.foldStep
              && log == LogBeforeLayers(proof, log0) + FriEvents(proof.innerLayers[..m]))
  {
    OodsStage(p, air, o, proof, log0);
    FriStage(p, air, o, proof, log0);
    var init := LayerStart(p, air, o, proof, log0);
    FriCommitBound(o, p.foldStep, init, proof.innerLayers);
    if |proof.innerLayers| * p.foldStep <= StartBound(p, air) {
      FriCommitOnSuccess(o, p.foldStep, init, proof.innerLayers);
    } else {
      FriCommitFailure(o, p.foldStep, init, proof.innerLayers);
    }
  }

  /** A last layer longer than 2^LOG_LAST_LAYER_DEGREE_BOUND fails the run
      after every layer's commitment and challenge. */
  lemma RunOnLastLayerFailure(p: Params, air: Air, o: Oracle, proof: StarkProof, log0: seq<Event>)
    requires PanicFree(p, air, proof) && Verdict(p, air, o, proof, log0) == Some(Fri(LastLayerDegreeInvalid))
    ensures FsRun(p, air, o, proof, log0) ==
      Run(Err(Fri(LastLayerDegreeInvalid)), LogBeforeLayers(proof, log0) + FriEvents(proof.innerLayers))
  {
    OodsStage(p, air, o, proof, log0);
    FriStage(p, air, o, proof, log0);
    LayersFold(p, air, o, proof, log0);
  }

  /** A failed proof of work leaves the log right after the last-layer
      coefficients: the nonce is not mixed in. */
  lemma RunOnPowFailure(p: Params, air: Air, o: Oracle, proof: StarkProof, log0: seq<Event>)
    requires PanicFree(p, air, proof) && Verdict(p, air, o, proof, log0) == Some(ProofOfWork)
    ensures FsRun(p, air, o, proof, log0) == Run(Err(ProofOfWork), LogBeforePow(proof, log0))
  {
    LateStage(p, air, o, proof, log0);
    PowLog(p, air, o, proof, log0);
    FsFinishUnfold(p, air, o, proof, DrawsOf(o, proof, log0), Bounds(air, p),
                   FriCommit(o, p.foldStep, LayerStart(p, air, o, proof, log0), proof.innerLayers));
  }

  /** The bundles of a successful run, in closed form: assembled from the
      draws at their transcript positions, the bounds, the layer loop's
      results, the digest after the last layer and the queries drawn after
      the nonce over the largest column. */
  function SuccessOut(p: Params, air: Air, o: Oracle, proof: StarkProof, log0: seq<Event>): FSOutput
    requires PanicFree(p, air, proof)
  {
    var bounds := Bounds(air, p);
    var logPow := LogBeforePow(proof, log0);
    Bundle(p, air, proof, DrawsOf(o, proof, log0), bounds,
           FriCommit(o, p.foldStep, LayerStart(p, air, o, proof, log0), proof.innerLayers),
           ColumnLogSizes(bounds, p.logBlowupFactor),
           PoWHint(o.digest(logPow), proof.nonce, p.powBits),
           o.queries(logPow + [AbsorbNonce(proof.nonce)], bounds[0] + p.logBlowupFactor, p.nQueries))
  }

  /** SuccessOut with the layer loop's final state and the proof-of-work
      log passed in. */
  lemma SuccessOutAt(p: Params, air: Air, o: Oracle, proof: StarkProof, log0: seq<Event>, fri: FriState, logPow: seq<Event>)
    requires PanicFree(p, air, proof)
    requires fri == FriCommit(o, p.foldStep, LayerStart(p, air, o, proof, log0), proof.innerLayers)
    requires logPow == LogBeforePow(proof, log0)
    ensures var bounds := Bounds(air, p);
      SuccessOut(p, air, o, proof, log0) ==
        Bundle(p, air, proof, DrawsOf(o, proof, log0), bounds, fri, ColumnLogSizes(bounds, p.logBlowupFactor),
               PoWHint(o.digest(logPow), proof.nonce, p.powBits),
               o.queries(logPow + [AbsorbNonce(proof.nonce)], bounds[0] + p.logBlowupFactor, p.nQueries))
  {
  }

  /** The fields of SuccessOut that come from the bounds and the layer
      loop. */
  lemma SuccessFields(p: Params, air: Air, o: Oracle, proof: StarkProof, log0: seq<Event>)
    requires PanicFree(p, air, proof)
    ensures var out := SuccessOut(p, air, o, proof, log0);
      var fri := FriCommit(o, p.foldStep, LayerStart(p, air, o, proof, log0), proof.innerLayers);
      var bounds := Bounds(air, p);
      && out.friInput.maxColumnLogDegreeBound == bounds[0]
      && out.friInput.columnLogSizes == ColumnLogSizes(bounds, p.logBlowupFactor)
      && out.friInput.lastLayerDomain == fri.domain
      && out.friInput.foldingAlphas == fri.alphas
      && out.fiatShamirHints.friCommitmentAndFoldingHints == fri.pairs
  {
  }

  /** When every check before the proof of work passes, the run is the last
      stage from the layer loop's final state. */
  lemma LateStage(p: Params, air: Air, o: Oracle, proof: StarkProof, log0: seq<Event>)
    requires PanicFree(p, air, proof)
    requires OodsHolds(p, air, o, proof, log0)
    requires LayerCountOk(p, StartBound(p, air), |proof.innerLayers|)
    requires |proof.lastLayerPoly| <= Pow2(p.logLastLayerDegreeBound)
    ensures FriCommit(o, p.foldStep, LayerStart(p, air, o, proof, log0), proof.innerLayers).bound.Some?
    ensures FsRun(p, air, o, proof, log0) ==
      FsFinish(p, air, o, proof, DrawsOf(o, proof, log0), Bounds(air, p),
               FriCommit(o, p.foldStep, LayerStart(p, air, o, proof, log0), proof.innerLayers))
  {
    OodsStage(p, air, o, proof, log0);
    FriStage(p, air, o, proof, log0);
    LayersFold(p, air, o, proof, log0);
  }

  /** The last stage of a run whose checks all pass returns the bundles in
      closed form. */
  lemma FinishSuccess(p: Params, air: Air, o: Oracle, proof: StarkProof, log0: seq<Event>)
    requires PanicFree(p, air, proof)
    requires FriCommit(o, p.foldStep, LayerStart(p, air, o, proof, log0), proof.innerLayers).bound.Some?
    requires PowHolds(p, o, proof, log0)
    ensures FsFinish(p, air, o, proof, DrawsOf(o, proof, log0), Bounds(air, p),
                     FriCommit(o, p.foldStep, LayerStart(p, air, o, proof, log0), proof.innerLayers)) ==
      Run(Ok(SuccessOut(p, air, o, proof, log0)),
          LogBeforePow(proof, log0) +
            [AbsorbNonce(proof.nonce), DrawQueries(Bounds(air, p)[0] + p.logBlowupFactor, p.nQueries)])
  {
    var fri := FriCommit(o, p.foldStep, LayerStart(p, air, o, proof, log0), proof.innerLayers);
    PowLog(p, air, o, proof, log0);
    var logPow := LogBeforePow(proof, log0);
    SuccessOutAt(p, air, o, proof, log0, fri, logPow);
    FsFinishOk(p, air, o, proof, DrawsOf(o, proof, log0), Bounds(air, p), fri, logPow, SuccessOut(p, air, o, proof, log0));
  }

  /** When every check passes, the run mixes the nonce, draws the queries
      over the largest column, and returns the bundles. */
  lemma RunOnSuccess(p: Params, air: Air, o: Oracle, proof: StarkProof, log0: seq<Event>)
    requires PanicFree(p, air, proof) && Verdict(p, air, o, proof, log0).None?
    ensures FsRun(p, air, o, proof, log0) ==
      Run(Ok(SuccessOut(p, air, o, proof, log0)),
          LogBeforePow(proof, log0) +
            [AbsorbNonce(proof.nonce), DrawQueries(Bounds(air, p)[0] + p.logBlowupFactor, p.nQueries)])
  {
    LateStage(p, air, o, proof, log0);
    FinishSuccess(p, air, o, proof, log0);
  }

  /** The result of a run: the error of the first failing check, or, when
      every check passes, the bundles in closed form. */
  lemma RunOutcome(p: Params, air: Air, o: Oracle, proof: StarkProof, log0: seq<Event>)
    requires PanicFree(p, air, proof)
    ensures FsRun(p, air, o, proof, log0).result ==
      match Verdict(p, air, o, proof, log0)
      case None => Ok(SuccessOut(p, air, o, proof, log0))
      case Some(e) => Err(e)
  {
    var v := Verdict(p, air, o, proof, log0);
    if v == Some(OodsNotMatching) {
      RunOnOodsFailure(p, air, o, proof, log0);
    } else if v == Some(Fri(InvalidNumFriLayers)) {
      RunOnLayerCountFailure(p, air, o, proof, log0);
    } else if v == Some(Fri(LastLayerDegreeInvalid)) {
      RunOnLastLayerFailure(p, air, o, proof, log0);
    } else if v == Some(ProofOfWork) {
      RunOnPowFailure(p, air, o, proof, log0);
    } else {
      RunOnSuccess(p, air, o, proof, log0);
    }
  }

  /** The checks fail in the code's order, each with its own error: the OODS
      identity under the first random coefficient, then the layer-count law,
      then the last-layer length (a length of exactly 2^LOG_LAST_LAYER_DEGREE_BOUND
      passes), then the proof of work; a run that passes all four succeeds. */
  lemma OutcomeTaxonomy(p: Params, air: Air, o: Oracle, proof: StarkProof, log0: seq<Event>)
    requires PanicFree(p, air, proof)
    ensures var r := FsRun(p, air, o, proof, log0).result;
      r == Err(OodsNotMatching) <==> !OodsHolds(p, air, o, proof, log0)
    ensures var r := FsRun(p, air, o, proof, log0).result;
      var start := StartBound(p, air);
      r == Err(Fri(InvalidNumFriLayers)) <==>
        OodsHolds(p, air, o, proof, log0) && !LayerCountOk(p, start, |proof.innerLayers|)
    ensures var r := FsRun(p, air, o, proof, log0).result;
      var start := StartBound(p, air);
      r == Err(Fri(LastLayerDegreeInvalid)) <==>
        && OodsHolds(p, air, o, proof, log0) && LayerCountOk(p, start, |proof.innerLayers|)
        && |proof.lastLayerPoly| > Pow2(p.logLastLayerDegreeBound)
    ensures var r := FsRun(p, air, o, proof, log0).result;
      var start := StartBound(p, air);
      r == Err(ProofOfWork) <==>
        && OodsHolds(p, air, o, proof, log0) && LayerCountOk(p, start, |proof.innerLayers|)
        && |proof.lastLayerPoly| <= Pow2(p.logLastLayerDegreeBound)
        && !PowHolds(p, o, proof, log0)
    ensures var r := FsRun(p, air, o, proof, log0).result;
      var start := StartBound(p, air);
      r.Ok? <==>
        && OodsHolds(p, air, o, proof, log0) && LayerCountOk(p, start, |proof.innerLayers|)
        && |proof.lastLayerPoly| <= Pow2(p.logLastLayerDegreeBound)
        && PowHolds(p, o, proof, log0)
  {
    RunOutcome(p, air, o, proof, log0);
  }

  // ---------------------------------------------------------------------
  // What a successful run returns (by RunOutcome, SuccessOut is the output
  // of every run whose checks all pass).

  /** Each hint is the one the channel yields at its own point of the
      transcript, so a verifier replaying the same events reproduces it. */
  lemma HintsReplay(p: Params, air: Air, o: Oracle, proof: StarkProof, log0: seq<Event>)
    requires PanicFree(p, air, proof)
    ensures var out := SuccessOut(p, air, o, proof, log0);
      var h := out.fiatShamirHints;
      var fi := out.friInput;
      var logRc2 := LogAfterOods(proof, log0) + [AbsorbFelts(Flatten(Flatten(proof.sampledValues)))];
      var logPow := LogBeforePow(proof, log0);
      && h.randomCoeffHint == FirstCoeff(o, proof, log0).hint
      && h.oodsHint == OodsDraw(o, proof, log0).hint
      && fi.sampledPoints == SampledPoints(air, OodsDraw(o, proof, log0).point)
      && FeltDraw(fi.randomCoeff, h.randomCoeffHint2) == o.felt(logRc2)
      && FeltDraw(fi.circlePolyAlpha, h.circlePolyAlphaHint) == o.felt(logRc2 + [DrawFelt])
      && h.powHint == PoWHint(o.digest(logPow), proof.nonce, p.powBits)
      && QueriesDraw(fi.queries, h.queriesHints) ==
           o.queries(logPow + [AbsorbNonce(proof.nonce)], fi.maxColumnLogDegreeBound + p.logBlowupFactor, p.nQueries)
  {
  }

  /** One folding challenge and one (commitment, hint) pair per inner layer,
      in layer order, each drawn right after that layer's commitment. */
  lemma LayerHintsReplay(p: Params, air: Air, o: Oracle, proof: StarkProof, log0: seq<Event>)
    requires PanicFree(p, air, proof) && Verdict(p, air, o, proof, log0).None?
    ensures var out := SuccessOut(p, air, o, proof, log0);
      var layers := proof.innerLayers;
      && |out.friInput.foldingAlphas| == |layers|
      && |out.fiatShamirHints.friCommitmentAndFoldingHints| == |layers|
      && forall i :: 0 <= i < |layers| ==>
           var d := o.felt(LogBeforeLayers(proof, log0) + FriEvents(layers[..i]) + [AbsorbDigest(layers[i].commitment)]);
           && out.friInput.foldingAlphas[i] == d.value
           && out.fiatShamirHints.friCommitmentAndFoldingHints[i] == (layers[i].commitment, d.hint)
  {
    var init := LayerStart(p, air, o, proof, log0);
    FriCommitBound(o, p.foldStep, init, proof.innerLayers);
    FriCommitOnSuccess(o, p.foldStep, init, proof.innerLayers);
  }

  /** The hints and FRI inputs copied from the proof: the two commitments,
      the three trace mask values, the four partial composition values, the
      composition quotients at the OODS point, the last layer's first
      coefficient (all of them when LOG_LAST_LAYER_DEGREE_BOUND is 0, the
      last-layer check having passed), the sampled values, and the column
      sizes of the commitment scheme. */
  lemma HintsCarryProofData(p: Params, air: Air, o: Oracle, proof: StarkProof, log0: seq<Event>)
    requires PanicFree(p, air, proof) && Verdict(p, air, o, proof, log0).None?
    ensures var out := SuccessOut(p, air, o, proof, log0);
      var h := out.fiatShamirHints;
      var fi := out.friInput;
      var sv := proof.sampledValues;
      && h.commitments == proof.commitments[..2]
      && h.traceOodsValues == sv[0][0]
      && (forall i :: 0 <= i < 4 ==> h.compositionOodsValues[i] == sv[1][i][0])
      && h.compositionHint == CompositionHintAt(air, OodsDraw(o, proof, log0).point, TraceMask(sv))
      && h.lastLayer == proof.lastLayerPoly[0]
      && |proof.lastLayerPoly| <= Pow2(p.logLastLayerDegreeBound)
      && (p.logLastLayerDegreeBound == 0 ==> proof.lastLayerPoly == [h.lastLayer])
      && fi.sampleValues == sv
      && fi.friLogBlowupFactor == p.logBlowupFactor
      && fi.commitmentSchemeColumnLogSizes == SchemeColumnLogSizes(air, p)
  {
    assert proof.commitments[..2] == [proof.commitments[0], proof.commitments[1]];
    assert proof.sampledValues[0][0] ==
      [proof.sampledValues[0][0][0], proof.sampledValues[0][0][1], proof.sampledValues[0][0][2]];
  }

  /** The layer-count law as the FRI inputs show it: the largest bound folds
      onto the line, one FOLD_STEP per inner layer brings it down to
      LOG_LAST_LAYER_DEGREE_BOUND, and the last layer's domain is the
      first layer's domain halved once per layer; with FOLD_STEP 1 that is
      the last-layer bound plus the blowup. */
  lemma LayerCountLaw(p: Params, air: Air, o: Oracle, proof: StarkProof, log0: seq<Event>)
    requires PanicFree(p, air, proof) && Verdict(p, air, o, proof, log0).None?
    ensures var fi := SuccessOut(p, air, o, proof, log0).friInput;
      var n := |proof.innerLayers|;
      var start := fi.maxColumnLogDegreeBound - p.circleToLineFoldStep;
      && start >= 0
      && n * p.foldStep <= start
      && start - n * p.foldStep == p.logLastLayerDegreeBound
      && fi.lastLayerDomain.logSize ==
           (if n <= start + p.logBlowupFactor then start + p.logBlowupFactor - n else 0)
      && (p.foldStep == 1 ==> fi.lastLayerDomain.logSize == p.logLastLayerDegreeBound + p.logBlowupFactor)
  {
    var n := |proof.innerLayers|;
    var start := StartBound(p, air);
    assert LayerCountOk(p, start, n);
    LayersFold(p, air, o, proof, log0);
    SuccessFields(p, air, o, proof, log0);
    assert start == Bounds(air, p)[0] - p.circleToLineFoldStep;
    if p.foldStep == 1 {
      UnitSteps(n, p.foldStep);
    }
  }

  lemma UnitSteps(n: nat, step: nat)
    requires step == 1
    ensures n * step == n
  {
  }

  /** The column log sizes of the FRI inputs: largest first, each once, the
      largest being the largest bound plus the blowup; they are exactly the
      sizes the commitment scheme recorded for the columns that are sampled
      (the composition degree bound and those trace columns' sizes, each
      plus the blowup), and the largest covers every one of them. */
  lemma FriInputColumnSizes(p: Params, air: Air, o: Oracle, proof: StarkProof, log0: seq<Event>)
    requires PanicFree(p, air, proof)
    ensures var fi := SuccessOut(p, air, o, proof, log0).friInput;
      var cs := fi.columnLogSizes;
      var bl := p.logBlowupFactor;
      && |cs| > 0
      && StrictlyDescending(cs)
      && cs[0] == fi.maxColumnLogDegreeBound + bl
      && (forall x :: x in cs <==>
            || x == air.compositionLogDegreeBound + bl
            || exists c :: 0 <= c < |air.traceLogSizes| && |air.maskOffsets[c]| > 0 && x == air.traceLogSizes[c] + bl)
      && air.compositionLogDegreeBound + bl <= cs[0]
      && (forall c :: 0 <= c < |air.traceLogSizes| && |air.maskOffsets[c]| > 0 ==> air.traceLogSizes[c] + bl <= cs[0])
  {
    var b := Bounds(air, p);
    var bl := p.logBlowupFactor;
    BoundsSpec(air, p);
    ColumnLogSizesSpec(b, bl);
    var cs := SuccessOut(p, air, o, proof, log0).friInput.columnLogSizes;
    forall x
      ensures x in cs <==>
        || x == air.compositionLogDegreeBound + bl
        || exists c :: 0 <= c < |air.traceLogSizes| && |air.maskOffsets[c]| > 0 && x == air.traceLogSizes[c] + bl
    {
      if x >= 0 {
        ColumnLogSizesMember(b, bl, x);
      }
      if exists c :: 0 <= c < |air.traceLogSizes| && |air.maskOffsets[c]| > 0 && x == air.traceLogSizes[c] + bl {
        var c :| 0 <= c < |air.traceLogSizes| && |air.maskOffsets[c]| > 0 && x == air.traceLogSizes[c] + bl;
        assert x - bl == air.traceLogSizes[c];
      }
    }
    assert air.compositionLogDegreeBound in b;
    forall c | 0 <= c < |air.traceLogSizes| && |air.maskOffsets[c]| > 0
      ensures air.traceLogSizes[c] + bl <= cs[0]
    {
      assert air.traceLogSizes[c] in b;
    }
  }
}
