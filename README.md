# Fiat-Shamir hint generation for the Fibonacci STARK verifier

This project models `generate_fs_hints` of bitcoin-circle-stark
(`src/fibonacci/fiat_shamir.rs`) and proves what it guarantees. The function
replays the Fiat-Shamir transcript of a Circle-STARK proof of the Fibonacci
AIR over the BWS-SHA256 channel. Along the way it records every hint a
Bitcoin script needs to re-derive the challenges:

- the draw hints of the random coefficients and the folding challenges;
- the OODS point hint;
- the proof-of-work hint;
- the query hint.

It also computes the inputs of the FRI opening phase. It runs four checks
and returns the first error it hits: the OODS composition identity, the
number of FRI layers, the length of the last-layer polynomial, and the
proof of work. The project also models
`bitcoin_script_push` of `FiatShamirHints`, which fixes the order in which
the hints are pushed onto the script.

Files:

- `types.dfy`: the records `FiatShamirHints`, `FriInput` and `FSOutput`. It
  also holds the proof fields the generator reads, the protocol constants as
  a `Params` record, and the AIR as the generator sees it.
- `transcript.dfy`: the channel. `Channel` is a class whose `log` records
  every event absorbed into it and every value drawn from it. What it
  yields is a fixed function (the `Oracle`) of that log, so two channels fed
  the same events yield the same challenges and hints.
- `degree_bounds.dfy`: the degree-bound pipeline, in this order:
  1. per-column bounds;
  2. flatten;
  3. sort;
  4. reverse;
  5. dedup.

  It also computes the column log sizes.
- `fri_layers.dfy`: the FRI commitment loop as a function, and its laws.
- `fiat_shamir.dfy`: the reference definition `FsRun`, which runs in three
  stages (`FsRun`, `FsFri`, `FsFinish`). It also holds the generator
  itself, as the methods `GenerateFsHints`, `OpenFri`, `FinishHints` and
  `CommitFriLayers` acting on a `Channel`. Each method is proved equal to
  its stage of the reference definition.
- `fs_properties.dfy`: the properties of the reference definition: the
  outcome of each check, the transcript of every outcome, where each hint
  comes from, and the layer-count law.
- `hints_wire.dfy`: `bitcoin_script_push`, a reader for what it pushes, and
  the round trip between them.

`bitcoin_script_push` pushes 17 + 2n items, where n is the number of FRI
inner layers: 4 + 3 + 4 + 3 before the layer pairs, 2 per layer, and 3
after them.

## Model

| member | source | states |
|---|---|---|
| Transcript.Channel.MixDigest | src/fibonacci/fiat_shamir.rs:264 | absorbing a commitment appends exactly that event to the log |
| Transcript.Channel.MixFelts | src/fibonacci/fiat_shamir.rs:216-222 | absorbing field elements appends exactly that event to the log |
| Transcript.Channel.DrawFeltAndHints | src/fibonacci/fiat_shamir.rs:153 | the challenge and its hint are the oracle's value at the log before the draw, and the draw is logged |
| Transcript.Channel.DrawPointWithHint | src/fibonacci/fiat_shamir.rs:163 | the OODS point and its hint are the oracle's value at the current log, and the draw is logged |
| Transcript.Channel.VerifyProofOfWork | src/fibonacci/fiat_shamir.rs:309-310 | the verdict is the oracle's check of the nonce against the current digest; a passing nonce is logged and a failing one leaves the log unchanged |
| Transcript.Channel.GenerateQueriesWithHints | src/fibonacci/fiat_shamir.rs:318-319 | the queries and their hint are the oracle's value for the current log, domain size and query count, and the draw is logged |
| BoundsPipeline.SortAscendingSpec | src/fibonacci/fiat_shamir.rs:233 | the sort returns an ascending permutation of its input |
| BoundsPipeline.ReverseAscending | src/fibonacci/fiat_shamir.rs:234 | reversing an ascending list gives a non-increasing list with the same elements |
| BoundsPipeline.DedupSpec | src/fibonacci/fiat_shamir.rs:235 | dedup of a non-increasing list is strictly descending, keeps every element and keeps the first one |
| BoundsPipeline.DedupStrict | src/fibonacci/fiat_shamir.rs:314 | dedup leaves a strictly descending list unchanged, so the second dedup does nothing |
| BoundsPipeline.SortReverseDedup | src/fibonacci/fiat_shamir.rs:233-235 | sorting, reversing and deduplicating gives a strictly descending list holding exactly the input's values |
| BoundsPipeline.FirstIsMax | src/fibonacci/fiat_shamir.rs:242 | the first element of a strictly descending list is its largest, so `bounds[0]` is the maximal column bound |
| BoundsPipeline.ColumnBoundsMember | src/fibonacci/fiat_shamir.rs:225-231 | a value is a per-column bound exactly when some column has at least one sampled point and a log size of that value plus the blowup |
| BoundsPipeline.DegreeBoundsSpec | src/fibonacci/fiat_shamir.rs:225-236 | `bounds` is strictly descending, its first element is its maximum, and it holds exactly the bounds of the sampled columns |
| BoundsPipeline.ColumnLogSizesSpec | src/fibonacci/fiat_shamir.rs:312-316 | the column log sizes are the bounds plus the blowup, in the same order, and strictly descending |
| BoundsPipeline.ColumnLogSizesMember | src/fibonacci/fiat_shamir.rs:312-316 | a column log size is a bound plus the blowup, and every bound gives one |
| FriLayers.FriCommitBound | src/fibonacci/fiat_shamir.rs:279-281 | the loop keeps a bound exactly when the start bound allows one FOLD_STEP per layer, and then ends at the start bound minus FOLD_STEP per layer |
| FriLayers.FriCommitStopped | src/fibonacci/fiat_shamir.rs:279-281 | once a fold has failed the loop has returned, so later layers change nothing |
| FriLayers.FriCommitOnSuccess | src/fibonacci/fiat_shamir.rs:257-283 | when every fold succeeds: the log is each layer's commitment followed by its challenge draw, in layer order; there is one alpha and one (commitment, hint) pair per layer; and challenge i is the oracle's value right after commitment i |
| FriLayers.FriCommitLogOnSuccess | src/fibonacci/fiat_shamir.rs:257-283 | when every fold succeeds the transcript grows by each layer's commitment and then one challenge draw, and the loop yields one alpha and one pair per layer |
| FriLayers.FriCommitDomain | src/fibonacci/fiat_shamir.rs:279-282 | the layer domain's log size drops by one per layer, saturating at 0 |
| FriLayers.FriCommitFolds | src/fibonacci/fiat_shamir.rs:257-283 | with enough bound for every layer, the loop's final bound, log and domain in closed form |
| FriLayers.FriCommitFailure | src/fibonacci/fiat_shamir.rs:264-281 | when the layers need more folding than the start bound allows, the run stops after the m-th layer, the first that cannot fold, having absorbed and drawn for exactly m layers |
| FiatShamir.SampledPointsLayout | src/fibonacci/fiat_shamir.rs:165-183 | the sampled points have the layout the code's assert_eq! checks: the trace tree holds the mask points, and the composition tree holds the OODS point once per column |
| FiatShamir.SampledPointsCounts | src/fibonacci/fiat_shamir.rs:171-173 | the number of sampled points per column does not depend on the OODS point: the mask size per trace column, and one per composition column |
| FiatShamir.BoundsShape | src/fibonacci/fiat_shamir.rs:225-229 | the scheme's column log sizes and the sampled-point counts have the same tree and column shape, and no recorded log size is below the blowup, as the scheme extends every committed size by it |
| FiatShamir.Bounds | src/fibonacci/fiat_shamir.rs:225-249 | `bounds` is non-empty and strictly descending; when some sampled column is large enough for the circle-to-line fold, so is `bounds[0]` |
| FiatShamir.BoundsSpec | src/fibonacci/fiat_shamir.rs:225-236 | `bounds` holds exactly the composition degree bound and the log sizes of the trace columns with a non-empty mask (the recorded sizes minus the blowup), and its first element is the maximum |
| FiatShamir.CommitFriLayers | src/fibonacci/fiat_shamir.rs:254-283 | the loop's channel log, alphas, pairs, bound and domain are those of the reference loop `FriCommit` from the same start |
| FiatShamir.GenerateFsHints | src/fibonacci/fiat_shamir.rs:145-363 | the generator returns the reference definition's result and leaves the channel log the reference definition gives |
| FiatShamir.OpenFri | src/fibonacci/fiat_shamir.rs:214-298 | the stage from the sampled values to the last-layer check returns the reference stage `FsFri`'s result and log |
| FiatShamir.FinishHints | src/fibonacci/fiat_shamir.rs:300-362 | the last stage returns the reference stage `FsFinish`'s result and log |
| FsProperties.LayersFold | src/fibonacci/fiat_shamir.rs:249-289 | when the layer count is right, the loop ends at LOG_LAST_LAYER_DEGREE_BOUND after every layer's events, with the domain halved once per layer |
| FsProperties.RunOnOodsFailure | src/fibonacci/fiat_shamir.rs:195-199 | a wrong OODS value returns OodsNotMatching, with the log ending at the OODS point's draw |
| FsProperties.RunOnLayerCountFailure | src/fibonacci/fiat_shamir.rs:279-289 | a wrong layer count returns InvalidNumFriLayers. If the start bound was too small, the log stops after the first layer that could not fold; otherwise it covers every layer |
| FsProperties.RunOnLastLayerFailure | src/fibonacci/fiat_shamir.rs:294-298 | a last-layer polynomial longer than 2^LOG_LAST_LAYER_DEGREE_BOUND returns LastLayerDegreeInvalid after every layer's events |
| FsProperties.RunOnPowFailure | src/fibonacci/fiat_shamir.rs:300-310 | a failed proof of work returns ProofOfWork, with the log ending at the last-layer coefficients |
| FsProperties.RunOnSuccess | src/fibonacci/fiat_shamir.rs:300-362 | when every check passes, the log ends with the nonce and the query draw over the largest column, and the result is the bundles in closed form |
| FsProperties.LateStage | src/fibonacci/fiat_shamir.rs:214-298 | when the OODS check, the layer count and the last-layer length all pass, the layer loop keeps a bound and the run continues into the proof-of-work stage |
| FsProperties.FinishSuccess | src/fibonacci/fiat_shamir.rs:300-362 | after the layers, a passing proof of work returns the closed-form bundles with the nonce and the query draw appended to the log |
| FsProperties.RunOutcome | src/fibonacci/fiat_shamir.rs:195-362 | the result is the error of the first failing check, in the code's order, or the bundles when every check passes |
| FsProperties.OutcomeTaxonomy | src/fibonacci/fiat_shamir.rs:195-310 | each error happens exactly when its own check fails and every earlier check passes; success happens exactly when all four checks pass |
| FsProperties.HintsReplay | src/fibonacci/fiat_shamir.rs:153-319 | each hint is what the channel yields at its own point of the transcript: the first coefficient, the OODS point, the second coefficient, the circle-to-line challenge, the PoW digest after the last layer, and the queries after the nonce over the largest column |
| FsProperties.LayerHintsReplay | src/fibonacci/fiat_shamir.rs:257-270 | there is one folding alpha and one (commitment, hint) pair per inner layer, in order; each is drawn right after that layer's commitment |
| FsProperties.HintsCarryProofData | src/fibonacci/fiat_shamir.rs:321-351 | the bundles copy the proof's two commitments, its 3 trace and 4 composition OODS values and its sampled values; the composition hint holds the two quotients at the OODS point; the last layer is the polynomial's first coefficient, and is its only coefficient when LOG_LAST_LAYER_DEGREE_BOUND is 0 |
| FsProperties.LayerCountLaw | src/fibonacci/fiat_shamir.rs:242-291 | on success, the max bound minus CIRCLE_TO_LINE_FOLD_STEP minus FOLD_STEP per layer equals LOG_LAST_LAYER_DEGREE_BOUND, and the last layer's domain is the first layer's domain halved once per layer |
| FsProperties.FriInputColumnSizes | src/fibonacci/fiat_shamir.rs:312-316 | the column log sizes are strictly descending and start at the max bound plus the blowup. They are exactly the recorded sizes of the sampled columns: the composition degree bound and each sampled trace column's size, plus the blowup; the first one is the largest |
| HintsWire.PushFelts | src/fibonacci/fiat_shamir.rs:73-78 | the loop pushes each field element once, in order |
| HintsWire.PushPairs | src/fibonacci/fiat_shamir.rs:82-85 | the loop pushes each commitment and then its folding hint, pair by pair |
| HintsWire.PairItemsAt | src/fibonacci/fiat_shamir.rs:82-85 | pair i sits at positions 2i and 2i + 1 of the pairs' pushes |
| HintsWire.BitcoinScriptPush | src/fibonacci/fiat_shamir.rs:67-90 | the builder ends as the old builder followed by the hints' pushes in wire order |
| HintsWire.WireLength | src/fibonacci/fiat_shamir.rs:67-88 | the hints push 17 items plus 2 per FRI inner layer |
| HintsWire.WireLayout | src/fibonacci/fiat_shamir.rs:67-88 | the position of every hint on the wire |
| HintsWire.ReadPairsInverse | src/fibonacci/fiat_shamir.rs:82-85 | reading the pairs' pushes back returns the pairs |
| HintsWire.ReadPairsSound | src/fibonacci/fiat_shamir.rs:82-85 | whatever the pair reader accepts is exactly the pushes of the pairs it returns |
| HintsWire.DecodeWire | src/fibonacci/fiat_shamir.rs:67-88 | the fixed head and tail of the pushes, together with the pairs, decode back to the hints |
| HintsWire.DecodeSound | src/fibonacci/fiat_shamir.rs:67-88 | whatever the decoder accepts has exactly the head and tail that those hints push |
| HintsWire.ReadWire | src/fibonacci/fiat_shamir.rs:67-88 | round trip: reading the pushes back returns the hints that were pushed |
| HintsWire.ReadHintsSound | src/fibonacci/fiat_shamir.rs:67-88 | the reader accepts only pushes of hints: what it returns pushes exactly the items it read |
| HintsWire.WireInjective | src/fibonacci/fiat_shamir.rs:67-88 | distinct hints push distinct item lists |

## Left out

- Hashing and sampling inside the channel (BWS-SHA256, the hint byte layouts, `get_random_point_with_hint`, `Queries::generate_with_hints`, the proof-of-work check) are not part of this model. Each is a fixed function, the `Oracle`, of the events absorbed so far.
- `ProofOfWork::verify` is not part of this model. In the model a passing nonce is mixed into the channel and a failing one leaves the channel unchanged.
- Field arithmetic in QM31/M31 is not modelled: elements are opaque values.
- The AIR's own computations are not modelled. These are `mask_points`, `eval_composition_polynomial_at_point`, the two constraint quotients, and the recombination of the four partial composition values. They are parameters of the `Air` record.
- `sampled_values_to_mask` (src/fibonacci/mod.rs) is not part of this model. The trace mask is taken to be the first tree of the sampled values, and the composition value the AIR's recombination of `sv[1][i][0]`.
- The constants LOG_BLOWUP_FACTOR, LOG_LAST_LAYER_DEGREE_BOUND, N_QUERIES, PROOF_OF_WORK_BITS, FOLD_STEP and CIRCLE_TO_LINE_FOLD_STEP come from stwo, which is not part of this model. They are fields of `Params`, and every property holds for every choice of them.
- `CommitmentSchemeVerifier::commit` comes from stwo, which is not part of this model. The model takes it to record, for each committed tree, the given column log sizes each extended by LOG_BLOWUP_FACTOR (`FiatShamir.SchemeColumnLogSizes`). This is what the arithmetic at lines 229 and 250-251 relies on, and it is why the subtraction at line 229 cannot underflow.
- `LineDomain::double` is modelled as halving the domain: the log size decreases, saturating at 0. Only the domain's log size is tracked, not its coset.
- Panics are preconditions, collected in `FiatShamir.PanicFree`:
  - fewer than two commitments;
  - a mask shape the `assert_eq!` checks at lines 176-183 would reject;
  - a sampled-values shape `sampled_values_to_mask` rejects (the `unwrap` at line 193);
  - a largest bound that cannot be folded to the line (line 249);
  - an empty last-layer polynomial (line 340).
- Because of the `unwrap` at line 193, the generator never returns InvalidStructure, and the model has no such outcome.
- `inner_layers` and its `FriLayerVerifier` records (lines 248, 271-277) are built but never returned, so they are left out.
- The unused sum at line 243 has no effect and is left out.
- u32 widths are not modelled: sizes and bounds are unbounded naturals. The preconditions exclude every subtraction that could underflow.
- The per-column bounds are counted from the mask sizes (`SampledCounts`), which do not depend on the OODS point. Where the code zips the column sizes with the sampled points, the model proves the two counts agree (`SampledPointsCounts`).
- How each compound hint serialises itself (`DrawHints`, `OODSHint`, `CompositionHint`, `PoWHint`, hashes and field elements) is not part of this model. A push is one `Item`.
- HintsWire.ReadHints is a reader written for the round trip. The Bitcoin script that pops the hints is not part of this model.
