/** The BWS-SHA256 Fiat-Shamir channel, seen from outside. Its hashing is not
    modelled: the channel is the log of everything absorbed into it and drawn
    from it, and each value it yields (a challenge with its replay hint, the
    OODS point, the digest, the queries, the proof-of-work verdict) is a fixed
    function, the `Oracle`, of that log. Two channels fed the same events in
    the same order therefore yield the same challenges. */
module Transcript {
  import opened FsTypes

  /** One operation on the channel, in the order it happened. */
  datatype Event =
    | AbsorbDigest(digest: Hash)       // mix_digest, or a commitment-scheme commit
    | AbsorbFelts(felts: seq<QM31>)    // mix_felts
    | DrawFelt                         // draw_felt_and_hints
    | DrawPoint                        // the OODS point draw
    | AbsorbNonce(nonce: nat)          // what a passed proof-of-work check mixes in
    | DrawQueries(logDomainSize: nat, nQueries: nat)

  datatype FeltDraw = FeltDraw(value: QM31, hint: DrawHints)
  datatype PointDraw = PointDraw(point: CirclePoint, hint: OODSHint)
  datatype QueriesDraw = QueriesDraw(queries: Queries, hint: DrawHints)

  /** The hidden hash: what the channel and the samplers built on it yield,
      as functions of the events absorbed so far. */
  datatype Oracle = Oracle(
    felt: seq<Event> -> FeltDraw,
    point: seq<Event> -> PointDraw,
    digest: seq<Event> -> Hash,
    powValid: (Hash, nat, nat) -> bool,
    queries: (seq<Event>, nat, nat) -> QueriesDraw)

  class Channel {
    const oracle: Oracle
    var log: seq<Event>

    constructor (oracle: Oracle, seed: seq<Event>)
      ensures this.oracle == oracle && log == seed
    {
      this.oracle := oracle;
      log := seed;
    }

    /** The current digest of the channel. */
    function Digest(): Hash
      reads this
    {
      oracle.digest(log)
    }

    method MixDigest(d: Hash)
      modifies this
      ensures log == old(log) + [AbsorbDigest(d)]
    {
      log := log + [AbsorbDigest(d)];
    }

    method MixFelts(felts: seq<QM31>)
      modifies this
      ensures log == old(log) + [AbsorbFelts(felts)]
    {
      log := log + [AbsorbFelts(felts)];
    }

    /** draw_felt_and_hints: a challenge determined by everything absorbed
        before it. */
    method DrawFeltAndHints() returns (felt: QM31, hint: DrawHints)
      modifies this
      ensures FeltDraw(felt, hint) == oracle.felt(old(log))
      ensures log == old(log) + [DrawFelt]
    {
      var d := oracle.felt(log);
      felt, hint := d.value, d.hint;
      log := log + [DrawFelt];
    }

    /** CirclePoint::get_random_point_with_hint. */
    method DrawPointWithHint() returns (point: CirclePoint, hint: OODSHint)
      modifies this
      ensures PointDraw(point, hint) == oracle.point(old(log))
      ensures log == old(log) + [DrawPoint]
    {
      var d := oracle.point(log);
      point, hint := d.point, d.hint;
      log := log + [DrawPoint];
    }

    /** ProofOfWork::verify: checks the nonce against the current digest; a
        passing nonce is mixed in, a failing one leaves the channel as it was. */
    method VerifyProofOfWork(nBits: nat, nonce: nat) returns (ok: bool)
      modifies this
      ensures ok == oracle.powValid(oracle.digest(old(log)), nonce, nBits)
      ensures log == if ok then old(log) + [AbsorbNonce(nonce)] else old(log)
    {
      ok := oracle.powValid(oracle.digest(log), nonce, nBits);
      if ok {
        log := log + [AbsorbNonce(nonce)];
      }
    }

    /** Queries::generate_with_hints. */
    method GenerateQueriesWithHints(logDomainSize: nat, nQueries: nat) returns (queries: Queries, hint: DrawHints)
      modifies this
      ensures QueriesDraw(queries, hint) == oracle.queries(old(log), logDomainSize, nQueries)
      ensures log == old(log) + [DrawQueries(logDomainSize, nQueries)]
    {
      var d := oracle.queries(log, logDomainSize, nQueries);
      queries, hint := d.queries, d.hint;
      log := log + [DrawQueries(logDomainSize, nQueries)];
    }
  }
}
