/** How the Fiat-Shamir hints are pushed onto a Bitcoin script builder: one
    push per commitment, per draw hint, per field element and per compound
    hint, in the fixed order the verifying script pops them. Each push is an
    `Item`; how a compound hint lays out its own bytes on the stack is its
    own `bitcoin_script_push` and is not part of this model. */
module HintsWire {
  import opened FsTypes

  /** One value pushed onto the builder. */
  datatype Item =
    | Digest(hash: Hash)
    | Draw(draw: DrawHints)
    | Oods(oods: OODSHint)
    | Felt(felt: QM31)
    | Composition(composition: CompositionHint)
    | PoW(pow: PoWHint)

  /** The pushes of a list of field elements, in order. */
  function FeltItems(vs: seq<QM31>): seq<Item>
  {
    seq(|vs|, i requires 0 <= i < |vs| => Felt(vs[i]))
  }

  /** The pushes of the (commitment, folding hint) pairs: for each pair, in
      order, the commitment and then the hint. */
  function PairItems(pairs: seq<(Hash, DrawHints)>): seq<Item>
    decreases |pairs|
  {
    if pairs == [] then []
    else [Digest(pairs[0].0), Draw(pairs[0].1)] + PairItems(pairs[1..])
  }

  /** The fourteen pushes before the FRI pairs: the trace commitment and
      the first random coefficient's hint, the composition commitment and
      the OODS hint, the three trace and four composition OODS values, the
      composition hint, and the hints of the second random coefficient and
      of the circle-to-line challenge. */
  function WireHead(h: FiatShamirHints): seq<Item>
  {
    [Digest(h.commitments[0]), Draw(h.randomCoeffHint), Digest(h.commitments[1]), Oods(h.oodsHint)]
    + FeltItems(h.traceOodsValues)
    + FeltItems(h.compositionOodsValues)
    + [Composition(h.compositionHint), Draw(h.randomCoeffHint2), Draw(h.circlePolyAlphaHint)]
  }

  /** The three pushes after the FRI pairs. */
  function WireTail(h: FiatShamirHints): seq<Item>
  {
    [Felt(h.lastLayer), PoW(h.powHint), Draw(h.queriesHints)]
  }

  /** Everything the hints push, in the order of `bitcoin_script_push`. */
  function WireItems(h: FiatShamirHints): seq<Item>
  {
    WireHead(h) + PairItems(h.friCommitmentAndFoldingHints) + WireTail(h)
  }

  lemma {:induction false} PairItemsLength(pairs: seq<(Hash, DrawHints)>)
    ensures |PairItems(pairs)| == 2 * |pairs|
    decreases |pairs|
  {
    if pairs != [] {
      PairItemsLength(pairs[1..]);
    }
  }

  /** The pairs' pushes grow by one commitment and one hint per pair. */
  lemma {:induction false} PairItemsSnoc(pairs: seq<(Hash, DrawHints)>, c: Hash, d: DrawHints)
    ensures PairItems(pairs + [(c, d)]) == PairItems(pairs) + [Digest(c), Draw(d)]
    decreases |pairs|
  {
    if pairs == [] {
      assert pairs + [(c, d)] == [(c, d)];
    } else {
      assert (pairs + [(c, d)])[1..] == pairs[1..] + [(c, d)];
      PairItemsSnoc(pairs[1..], c, d);
    }
  }

  /** Pair i sits at positions 2i (its commitment) and 2i + 1 (its hint). */
  lemma {:induction false} PairItemsAt(pairs: seq<(Hash, DrawHints)>, i: nat)
    requires i < |pairs|
    ensures |PairItems(pairs)| == 2 * |pairs|
    ensures PairItems(pairs)[2 * i] == Digest(pairs[i].0)
    ensures PairItems(pairs)[2 * i + 1] == Draw(pairs[i].1)
    decreases |pairs|
  {
    PairItemsLength(pairs);
    if i > 0 {
      PairItemsAt(pairs[1..], i - 1);
    }
  }

  /** The loop pushing each field element of `vs`, in order. */
  method PushFelts(builder: seq<Item>, vs: seq<QM31>) returns (b: seq<Item>)
    ensures b == builder + FeltItems(vs)
  {
    b := builder;
    for i := 0 to |vs|
      invariant b == builder + FeltItems(vs[..i])
    {
      assert FeltItems(vs[..i + 1]) == FeltItems(vs[..i]) + [Felt(vs[i])];
      b := b + [Felt(vs[i])];
    }
    assert vs[..|vs|] == vs;
  }

  /** The loop pushing each (commitment, folding hint) pair, commitment
      first. */
  method PushPairs(builder: seq<Item>, pairs: seq<(Hash, DrawHints)>) returns (b: seq<Item>)
    ensures b == builder + PairItems(pairs)
  {
    b := builder;
    for i := 0 to |pairs|
      invariant b == builder + PairItems(pairs[..i])
    {
      var (c, d) := pairs[i];
      PairItemsSnoc(pairs[..i], c, d);
      assert pairs[..i + 1] == pairs[..i] + [(c, d)];
      b := b + [Digest(c)];
      b := b + [Draw(d)];
    }
    assert pairs[..|pairs|] == pairs;
  }

  /** Fiat-Shamir hints, `bitcoin_script_push`: push the hints onto
      `builder`, one item at a time, and return the builder. */
  method BitcoinScriptPush(h: FiatShamirHints, builder: seq<Item>) returns (b: seq<Item>)
    ensures b == builder + WireItems(h)
  {
    b := builder;
    b := b + [Digest(h.commitments[0])];
    b := b + [Draw(h.randomCoeffHint)];
    b := b + [Digest(h.commitments[1])];
    b := b + [Oods(h.oodsHint)];
    assert b == builder + [Digest(h.commitments[0]), Draw(h.randomCoeffHint), Digest(h.commitments[1]), Oods(h.oodsHint)];
    b := PushFelts(b, h.traceOodsValues);
    b := PushFelts(b, h.compositionOodsValues);
    b := b + [Composition(h.compositionHint)];
    b := b + [Draw(h.randomCoeffHint2)];
    b := b + [Draw(h.circlePolyAlphaHint)];
    assert b == builder + WireHead(h);
    b := PushPairs(b, h.friCommitmentAndFoldingHints);
    b := b + [Felt(h.lastLayer)];
    b := b + [PoW(h.powHint)];
    b := b + [Draw(h.queriesHints)];
    assert b == builder + WireHead(h) + PairItems(h.friCommitmentAndFoldingHints) + WireTail(h);
  }

  /** The pushes number 17 plus two per FRI inner layer. */
  lemma WireLength(h: FiatShamirHints)
    ensures |WireItems(h)| == 17 + 2 * |h.friCommitmentAndFoldingHints|
  {
    PairItemsLength(h.friCommitmentAndFoldingHints);
  }

  /** Where each hint sits on the wire. */
  lemma WireLayout(h: FiatShamirHints)
    ensures var w := WireItems(h);
      var n := |h.friCommitmentAndFoldingHints|;
      && |w| == 17 + 2 * n
      && w[0] == Digest(h.commitments[0])
      && w[1] == Draw(h.randomCoeffHint)
      && w[2] == Digest(h.commitments[1])
      && w[3] == Oods(h.oodsHint)
      && (forall i :: 0 <= i < 3 ==> w[4 + i] == Felt(h.traceOodsValues[i]))
      && (forall i :: 0 <= i < 4 ==> w[7 + i] == Felt(h.compositionOodsValues[i]))
      && w[11] == Composition(h.compositionHint)
      && w[12] == Draw(h.randomCoeffHint2)
      && w[13] == Draw(h.circlePolyAlphaHint)
      && (forall i :: 0 <= i < n ==>
            w[14 + 2 * i] == Digest(h.friCommitmentAndFoldingHints[i].0) &&
            w[15 + 2 * i] == Draw(h.friCommitmentAndFoldingHints[i].1))
      && w[14 + 2 * n] == Felt(h.lastLayer)
      && w[15 + 2 * n] == PoW(h.powHint)
      && w[16 + 2 * n] == Draw(h.queriesHints)
  {
    var pairs := h.friCommitmentAndFoldingHints;
    var w := WireItems(h);
    PairItemsLength(pairs);
    var pi := PairItems(pairs);
    assert w[14..14 + |pi|] == pi;
    forall i | 0 <= i < |pairs|
      ensures w[14 + 2 * i] == Digest(pairs[i].0) && w[15 + 2 * i] == Draw(pairs[i].1)
    {
      PairItemsAt(pairs, i);
      assert w[14 + 2 * i] == pi[2 * i];
      assert w[15 + 2 * i] == pi[2 * i + 1];
    }
  }

  // ---------------------------------------------------------------------
  // Reading the hints back, as the verifying script pops them.

  /** The pairs from their pushes: a commitment then a hint, repeated. */
  function ReadPairs(s: seq<Item>): Option<seq<(Hash, DrawHints)>>
    decreases |s|
  {
    if s == [] then Some([])
    else if |s| < 2 || !s[0].Digest? || !s[1].Draw? then None
    else match ReadPairs(s[2..])
      case None => None
      case Some(rest) => Some([(s[0].hash, s[1].draw)] + rest)
  }

  /** The hints from the fourteen pushes before the pairs and the three
      after them, or None when an item is not of the kind its position
      calls for. */
  function Decode(head: seq<Item>, pairs: seq<(Hash, DrawHints)>, tail: seq<Item>): Option<FiatShamirHints>
    requires |head| == 14 && |tail| == 3
  {
    if !(&& head[0].Digest? && head[1].Draw? && head[2].Digest? && head[3].Oods?
         && head[4].Felt? && head[5].Felt? && head[6].Felt?
         && head[7].Felt? && head[8].Felt? && head[9].Felt? && head[10].Felt?
         && head[11].Composition? && head[12].Draw? && head[13].Draw?
         && tail[0].Felt? && tail[1].PoW? && tail[2].Draw?)
    then None
    else
      Some(FiatShamirHints(
        [head[0].hash, head[2].hash],
        head[1].draw,
        head[3].oods,
        [head[4].felt, head[5].felt, head[6].felt],
        [head[7].felt, head[8].felt, head[9].felt, head[10].felt],
        head[11].composition,
        head[12].draw,
        head[13].draw,
        pairs,
        tail[0].felt,
        tail[1].pow,
        tail[2].draw))
  }

  /** The hints from their pushes, or None when the items are not the pushes
      of any hints: fourteen items, an even number of pair items, then three
      items. */
  function ReadHints(w: seq<Item>): Option<FiatShamirHints>
  {
    if |w| < 17 || (|w| - 17) % 2 != 0 then None
    else
      var t := |w| - 3;
      match ReadPairs(w[14..t])
      case None => None
      case Some(pairs) => Decode(w[..14], pairs, w[t..])
  }

  lemma {:induction false} ReadPairsInverse(pairs: seq<(Hash, DrawHints)>)
    ensures ReadPairs(PairItems(pairs)) == Some(pairs)
    decreases |pairs|
  {
    if pairs != [] {
      ReadPairsInverse(pairs[1..]);
      var s := PairItems(pairs);
      assert s[2..] == PairItems(pairs[1..]);
      assert [(pairs[0].0, pairs[0].1)] + pairs[1..] == pairs;
    }
  }

  lemma {:induction false} ReadPairsSound(s: seq<Item>, pairs: seq<(Hash, DrawHints)>)
    requires ReadPairs(s) == Some(pairs)
    ensures PairItems(pairs) == s
    decreases |s|
  {
    if s != [] {
      var rest := ReadPairs(s[2..]).value;
      ReadPairsSound(s[2..], rest);
      var first := (s[0].hash, s[1].draw);
      assert pairs == [first] + rest;
      assert pairs[0] == first && pairs[1..] == rest;
      assert [Digest(first.0), Draw(first.1)] == s[..2];
      assert PairItems(pairs) == s[..2] + s[2..];
      assert s[..2] + s[2..] == s;
    }
  }

  lemma DecodeWire(h: FiatShamirHints)
    ensures Decode(WireHead(h), h.friCommitmentAndFoldingHints, WireTail(h)) == Some(h)
  {
    var head := WireHead(h);
    assert h.commitments == [head[0].hash, head[2].hash];
    assert h.traceOodsValues == [head[4].felt, head[5].felt, head[6].felt];
    assert h.compositionOodsValues == [head[7].felt, head[8].felt, head[9].felt, head[10].felt];
  }

  lemma DecodeSound(head: seq<Item>, pairs: seq<(Hash, DrawHints)>, tail: seq<Item>, h: FiatShamirHints)
    requires |head| == 14 && |tail| == 3
    requires Decode(head, pairs, tail) == Some(h)
    ensures head == WireHead(h) && tail == WireTail(h) && pairs == h.friCommitmentAndFoldingHints
  {
    assert head[..4] == [Digest(h.commitments[0]), Draw(h.randomCoeffHint), Digest(h.commitments[1]), Oods(h.oodsHint)];
    assert head[4..7] == FeltItems(h.traceOodsValues);
    assert head[7..11] == FeltItems(h.compositionOodsValues);
    assert head[11..] == [Composition(h.compositionHint), Draw(h.randomCoeffHint2), Draw(h.circlePolyAlphaHint)];
    assert head == head[..4] + head[4..7] + head[7..11] + head[11..];
  }

  /** Round trip: the script reads back exactly the hints that were pushed. */
  lemma ReadWire(h: FiatShamirHints)
    ensures ReadHints(WireItems(h)) == Some(h)
  {
    var pairs := h.friCommitmentAndFoldingHints;
    var head, mid, tail := WireHead(h), PairItems(pairs), WireTail(h);
    var w := head + mid + tail;
    PairItemsLength(pairs);
    SliceConcat(head, mid, tail);
    assert |head| == 14 && |w| - 3 == 14 + |mid|;
    ReadPairsInverse(pairs);
    DecodeWire(h);
  }

  /** The three parts of a concatenation, sliced back out. */
  lemma SliceConcat<T>(a: seq<T>, b: seq<T>, c: seq<T>)
    ensures var w := a + b + c;
      && w[..|a|] == a
      && w[|a|..|a| + |b|] == b
      && w[|a| + |b|..] == c
  {
  }

  /** The reader accepts nothing but pushes of hints: whatever it reads, the
      items were exactly that hint bundle's pushes. */
  lemma ReadHintsSound(w: seq<Item>, h: FiatShamirHints)
    requires ReadHints(w) == Some(h)
    ensures WireItems(h) == w
  {
    var t := |w| - 3;
    var pairs := ReadPairs(w[14..t]).value;
    DecodeSound(w[..14], pairs, w[t..], h);
    ReadPairsSound(w[14..t], pairs);
    SplitJoin(w, 14, t);
  }

  /** Distinct hints push distinct item lists. */
  lemma WireInjective(h1: FiatShamirHints, h2: FiatShamirHints)
    requires WireItems(h1) == WireItems(h2)
    ensures h1 == h2
  {
    ReadWire(h1);
    ReadWire(h2);
  }

  /** A sequence is its three slices, joined back. */
  lemma SplitJoin<T>(w: seq<T>, i: nat, j: nat)
    requires i <= j <= |w|
    ensures w[..i] + w[i..j] + w[j..] == w
  {
  }

}
