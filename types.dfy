/** Values that flow through the Fiat-Shamir hint generator of the Fibonacci
    example verifier: the proof it reads, the hint bundle and FRI inputs it
    produces, and the typed errors it returns. Cryptographic payloads (digests,
    field elements, replay hints) are carried as opaque values: the generator
    never inspects them, it only sequences and places them. */
module FsTypes {

  datatype Option<T> = None | Some(value: T)

  datatype Result<T, E> = Ok(value: T) | Err(error: E)

  /** A BWS-SHA256 digest (a Merkle root or a channel digest). */
  datatype Hash = Hash(bytes: seq<bv8>)

  /** An element of the secure extension field QM31, as its four M31
      coordinates; field arithmetic is not part of this model. */
  datatype QM31 = QM31(c0: nat, c1: nat, c2: nat, c3: nat)

  /** A point of the circle over QM31. */
  datatype CirclePoint = CirclePoint(x: QM31, y: QM31)

  /** Replay witness of one challenge draw from the channel. */
  datatype DrawHints = DrawHints(payload: seq<bv8>)

  /** Replay witness of the out-of-domain sample point. */
  datatype OODSHint = OODSHint(payload: seq<bv8>)

  /** The boundary- and step-constraint quotients at the OODS point. */
  datatype CompositionHint = CompositionHint(constraintEvalQuotientsByMask: seq<QM31>)

  /** What the proof-of-work hint is built from: the channel digest, the
      proof's nonce and the difficulty in bits. */
  datatype PoWHint = PoWHint(digest: Hash, nonce: nat, nBits: nat)

  /** Sampled query positions in a domain of size 2^logDomainSize. */
  datatype Queries = Queries(positions: seq<nat>, logDomainSize: nat)

  /** A line domain, tracked by its log size only. */
  datatype LineDomain = LineDomain(logSize: nat)

  /** The fixed-size arrays of the hint bundle. */
  type Hashes2 = s: seq<Hash> | |s| == 2 witness [Hash([]), Hash([])]
  type Felts3 = s: seq<QM31> | |s| == 3
    witness [QM31(0, 0, 0, 0), QM31(0, 0, 0, 0), QM31(0, 0, 0, 0)]
  type Felts4 = s: seq<QM31> | |s| == 4
    witness [QM31(0, 0, 0, 0), QM31(0, 0, 0, 0), QM31(0, 0, 0, 0), QM31(0, 0, 0, 0)]

  /** One FRI inner layer of the proof; only its commitment is read here. */
  datatype FriLayerProof = FriLayerProof(commitment: Hash)

  /** The parts of a STARK proof the hint generator reads. `sampledValues` is
      indexed by tree, then column, then sample. */
  datatype StarkProof = StarkProof(
    commitments: seq<Hash>,
    sampledValues: seq<seq<seq<QM31>>>,
    innerLayers: seq<FriLayerProof>,
    lastLayerPoly: seq<QM31>,
    nonce: nat)

  /** The protocol constants of the prover library: LOG_BLOWUP_FACTOR,
      LOG_LAST_LAYER_DEGREE_BOUND, N_QUERIES, PROOF_OF_WORK_BITS, FOLD_STEP and
      the circle-to-line fold step. Every property here holds for all values. */
  datatype Params = Params(
    logBlowupFactor: nat,
    logLastLayerDegreeBound: nat,
    nQueries: nat,
    powBits: nat,
    foldStep: nat,
    circleToLineFoldStep: nat)

  /** The Fibonacci AIR as the generator sees it: its trace column sizes, the
      composition polynomial's degree bound, its mask (per trace column, the
      offsets of the sampled points), and the foreign field computations it
      performs, as functions. */
  datatype Air = Air(
    traceLogSizes: seq<nat>,
    compositionLogDegreeBound: nat,
    maskOffsets: seq<seq<int>>,
    maskPoint: (CirclePoint, int) -> CirclePoint,
    evalCompositionAt: (CirclePoint, seq<seq<seq<QM31>>>, QM31) -> QM31,
    boundaryQuotient: (CirclePoint, seq<QM31>) -> QM31,
    stepQuotient: (CirclePoint, seq<QM31>) -> QM31,
    fromPartialEvals: seq<QM31> -> QM31)

  datatype FriVerificationError = InvalidNumFriLayers | LastLayerDegreeInvalid

  datatype VerificationError = OodsNotMatching | Fri(fri: FriVerificationError) | ProofOfWork

  /** Bundle #1: everything the constrained verifier needs to replay the
      transcript, in wire order. */
  datatype FiatShamirHints = FiatShamirHints(
    commitments: Hashes2,
    randomCoeffHint: DrawHints,
    oodsHint: OODSHint,
    traceOodsValues: Felts3,
    compositionOodsValues: Felts4,
    compositionHint: CompositionHint,
    randomCoeffHint2: DrawHints,
    circlePolyAlphaHint: DrawHints,
    friCommitmentAndFoldingHints: seq<(Hash, DrawHints)>,
    lastLayer: QM31,
    powHint: PoWHint,
    queriesHints: DrawHints)

  /** Bundle #2: the parameters of the FRI opening phase. */
  datatype FriInput = FriInput(
    friLogBlowupFactor: nat,
    maxColumnLogDegreeBound: nat,
    columnLogSizes: seq<nat>,
    commitmentSchemeColumnLogSizes: seq<seq<nat>>,
    sampledPoints: seq<seq<seq<CirclePoint>>>,
    sampleValues: seq<seq<seq<QM31>>>,
    randomCoeff: QM31,
    circlePolyAlpha: QM31,
    foldingAlphas: seq<QM31>,
    lastLayerDomain: LineDomain,
    queries: Queries)

  datatype FSOutput = FSOutput(fiatShamirHints: FiatShamirHints, friInput: FriInput)

  function Pow2(n: nat): (r: nat)
    ensures r >= 1
  {
    if n == 0 then 1 else 2 * Pow2(n - 1)
  }
}
