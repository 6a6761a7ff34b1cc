/** The degree-bound pipeline of the hint generator: one bound
    `log_size - LOG_BLOWUP_FACTOR` per sampled point of every committed column,
    flattened over trees and columns, sorted, reversed and deduplicated; and
    the column log sizes the queries are drawn with, which add the blowup
    factor back. */
module BoundsPipeline {

  function Flatten<T>(s: seq<seq<T>>): seq<T>
  {
    if s == [] then [] else s[0] + Flatten(s[1..])
  }

  lemma {:induction false} FlattenMember<T>(s: seq<seq<T>>, x: T)
    ensures x in Flatten(s) <==> exists i :: 0 <= i < |s| && x in s[i]
  {
    if s != [] {
      FlattenMember(s[1..], x);
      assert forall i :: 1 <= i < |s| ==> s[i] == s[1..][i - 1];
    }
  }

  predicate Ascending(s: seq<nat>)
  {
    forall i, j :: 0 <= i < j < |s| ==> s[i] <= s[j]
  }

  predicate NonIncreasing(s: seq<nat>)
  {
    forall i, j :: 0 <= i < j < |s| ==> s[i] >= s[j]
  }

  predicate StrictlyDescending(s: seq<nat>)
  {
    forall i, j :: 0 <= i < j < |s| ==> s[i] > s[j]
  }

  /** Column sizes and sampled-point counts zip column by column. */
  predicate SameShape(sizes: seq<seq<nat>>, counts: seq<seq<nat>>)
  {
    |counts| == |sizes| && forall t :: 0 <= t < |sizes| ==> |counts[t]| == |sizes[t]|
  }

  /** No column is smaller than the blowup, so `log_size - LOG_BLOWUP_FACTOR`
      does not underflow. */
  predicate AtLeastBlowup(sizes: seq<seq<nat>>, blowup: nat)
  {
    forall t, c :: 0 <= t < |sizes| && 0 <= c < |sizes[t]| ==> sizes[t][c] >= blowup
  }

  /** The map_cols step: for each column, its bound repeated once per point
      sampled in it. */
  function ColumnBounds(sizes: seq<seq<nat>>, counts: seq<seq<nat>>, blowup: nat): seq<seq<seq<nat>>>
    requires SameShape(sizes, counts) && AtLeastBlowup(sizes, blowup)
  {
    seq(|sizes|, t requires 0 <= t < |sizes| =>
      seq(|sizes[t]|, c requires 0 <= c < |sizes[t]| =>
        seq(counts[t][c], _ => sizes[t][c] - blowup)))
  }

  /** `.sorted()`: ascending order. */
  function SortAscending(s: seq<nat>): seq<nat>
  {
    if s == [] then [] else Insert(s[0], SortAscending(s[1..]))
  }

  function Insert(x: nat, s: seq<nat>): seq<nat>
  {
    if s == [] || x <= s[0] then [x] + s else [s[0]] + Insert(x, s[1..])
  }

  /** `.rev()`. */
  function Reverse(s: seq<nat>): seq<nat>
  {
    if s == [] then [] else Reverse(s[1..]) + [s[0]]
  }

  /** `.dedup()`: drops each element equal to the one before it. */
  function Dedup(s: seq<nat>): seq<nat>
  {
    if |s| <= 1 then s
    else if s[0] == s[1] then Dedup(s[1..])
    else [s[0]] + Dedup(s[1..])
  }

  /** The `bounds` list: largest first, each bound once. */
  function DegreeBounds(sizes: seq<seq<nat>>, counts: seq<seq<nat>>, blowup: nat): seq<nat>
    requires SameShape(sizes, counts) && AtLeastBlowup(sizes, blowup)
  {
    Dedup(Reverse(SortAscending(Flatten(Flatten(ColumnBounds(sizes, counts, blowup))))))
  }

  /** `column_log_sizes`: the bounds deduplicated again, with the blowup added
      back. */
  function ColumnLogSizes(bounds: seq<nat>, blowup: nat): seq<nat>
  {
    var d := Dedup(bounds);
    seq(|d|, i requires 0 <= i < |d| => d[i] + blowup)
  }

  lemma {:induction false} InsertSpec(x: nat, s: seq<nat>)
    requires Ascending(s)
    ensures Ascending(Insert(x, s))
    ensures multiset(Insert(x, s)) == multiset(s) + multiset{x}
    ensures |Insert(x, s)| == |s| + 1
    ensures Insert(x, s)[0] == if s == [] || x <= s[0] then x else s[0]
  {
    if s == [] || x <= s[0] {
      ConsAscending(x, s);
    } else {
      var t := s[1..];
      assert Ascending(t);
      InsertSpec(x, t);
      assert s == [s[0]] + t;
      ConsAscending(s[0], Insert(x, t));
    }
  }

  /** Putting an element no larger than the head in front keeps a list
      ascending. */
  lemma ConsAscending(a: nat, r: seq<nat>)
    requires Ascending(r)
    requires |r| > 0 ==> a <= r[0]
    ensures Ascending([a] + r)
  {
    var l := [a] + r;
    forall i, j | 0 <= i < j < |l| ensures l[i] <= l[j] {
      if i == 0 && j > 1 {
        assert r[0] <= r[j - 1];
      }
    }
  }

  /** Sorting yields an ascending permutation of its input. */
  lemma {:induction false} SortAscendingSpec(s: seq<nat>)
    ensures Ascending(SortAscending(s))
    ensures multiset(SortAscending(s)) == multiset(s)
  {
    if s != [] {
      SortAscendingSpec(s[1..]);
      InsertSpec(s[0], SortAscending(s[1..]));
      assert s == [s[0]] + s[1..];
    }
  }

  lemma {:induction false} ReverseAt(s: seq<nat>)
    ensures |Reverse(s)| == |s|
    ensures forall k :: 0 <= k < |s| ==> Reverse(s)[k] == s[|s| - 1 - k]
  {
    if s != [] {
      ReverseAt(s[1..]);
    }
  }

  /** Reversing an ascending list gives a non-increasing one with the same
      elements. */
  lemma ReverseAscending(s: seq<nat>)
    requires Ascending(s)
    ensures NonIncreasing(Reverse(s))
    ensures forall x :: x in Reverse(s) <==> x in s
  {
    ReverseAt(s);
    var r := Reverse(s);
    forall x | x in s ensures x in r {
      var k :| 0 <= k < |s| && s[k] == x;
      assert r[|s| - 1 - k] == x;
    }
  }

  /** Deduplicating a non-increasing list makes it strictly descending,
      keeps its set of elements and its first element. */
  lemma {:induction false} DedupSpec(s: seq<nat>)
    requires NonIncreasing(s)
    ensures StrictlyDescending(Dedup(s))
    ensures forall x :: x in Dedup(s) <==> x in s
    ensures |s| > 0 ==> |Dedup(s)| > 0 && Dedup(s)[0] == s[0]
  {
    if |s| > 1 {
      var tail := s[1..];
      assert NonIncreasing(tail) by {
        forall i, j | 0 <= i < j < |tail| ensures tail[i] >= tail[j] {
          assert tail[i] == s[i + 1] && tail[j] == s[j + 1];
        }
      }
      DedupSpec(tail);
      assert s == [s[0]] + tail;
      var d := Dedup(tail);
      if s[0] == s[1] {
        assert Dedup(s) == d;
        assert s[0] in tail;
      } else {
        assert Dedup(s) == [s[0]] + d;
        StrictPrepend(s[0], d);
      }
    }
  }

  lemma StrictPrepend(x: nat, d: seq<nat>)
    requires StrictlyDescending(d)
    requires |d| > 0 ==> x > d[0]
    ensures StrictlyDescending([x] + d)
  {
    var r := [x] + d;
    forall i, j | 0 <= i < j < |r| ensures r[i] > r[j] {
      if i == 0 && j > 1 {
        assert d[0] > d[j - 1];
      }
    }
  }

  /** A strictly descending list has nothing left to deduplicate. */
  lemma {:induction false} DedupStrict(s: seq<nat>)
    requires StrictlyDescending(s)
    ensures Dedup(s) == s
  {
    if |s| > 1 {
      DedupStrict(s[1..]);
    }
  }

  lemma ColumnBoundsMember(sizes: seq<seq<nat>>, counts: seq<seq<nat>>, blowup: nat, x: nat)
    requires SameShape(sizes, counts) && AtLeastBlowup(sizes, blowup)
    ensures x in Flatten(Flatten(ColumnBounds(sizes, counts, blowup))) <==>
      exists t, c :: 0 <= t < |sizes| && 0 <= c < |sizes[t]| && counts[t][c] > 0 && x == sizes[t][c] - blowup
  {
    var cb := ColumnBounds(sizes, counts, blowup);
    FlattenMemberOfFlattens(cb, x);
    if x in Flatten(Flatten(cb)) {
      var t :| 0 <= t < |cb| && x in Flatten(cb[t]);
      FlattenMember(cb[t], x);
      var c :| 0 <= c < |cb[t]| && x in cb[t][c];
      assert counts[t][c] > 0 && x == sizes[t][c] - blowup;
    }
    if exists t, c :: 0 <= t < |sizes| && 0 <= c < |sizes[t]| && counts[t][c] > 0 && x == sizes[t][c] - blowup {
      var t, c :| 0 <= t < |sizes| && 0 <= c < |sizes[t]| && counts[t][c] > 0 && x == sizes[t][c] - blowup;
      assert cb[t][c][0] == x;
      FlattenMember(cb[t], x);
    }
  }

  lemma {:induction false} FlattenMemberOfFlattens(cb: seq<seq<seq<nat>>>, x: nat)
    ensures x in Flatten(Flatten(cb)) <==> exists t :: 0 <= t < |cb| && x in Flatten(cb[t])
  {
    FlattenMember(Flatten(cb), x);
    if cb != [] {
      FlattenMemberOfFlattens(cb[1..], x);
      assert forall t :: 1 <= t < |cb| ==> cb[t] == cb[1..][t - 1];
      assert Flatten(cb) == cb[0] + Flatten(cb[1..]);
      FlattenAppend(cb[0], Flatten(cb[1..]));
    }
  }

  lemma {:induction false} FlattenAppend(a: seq<seq<nat>>, b: seq<seq<nat>>)
    ensures Flatten(a + b) == Flatten(a) + Flatten(b)
  {
    if a != [] {
      FlattenAppend(a[1..], b);
      assert (a + b)[0] == a[0];
      assert (a + b)[1..] == a[1..] + b;
      calc {
        Flatten(a + b);
        a[0] + Flatten(a[1..] + b);
        a[0] + (Flatten(a[1..]) + Flatten(b));
        (a[0] + Flatten(a[1..])) + Flatten(b);
      }
    } else {
      assert a + b == b;
    }
  }

  /** `bounds` is strictly descending, holds exactly the bounds of the
      columns that have sampled points, and starts with its largest element. */
  lemma DegreeBoundsSpec(sizes: seq<seq<nat>>, counts: seq<seq<nat>>, blowup: nat)
    requires SameShape(sizes, counts) && AtLeastBlowup(sizes, blowup)
    ensures StrictlyDescending(DegreeBounds(sizes, counts, blowup))
    ensures forall x :: x in DegreeBounds(sizes, counts, blowup) <==>
      exists t, c :: 0 <= t < |sizes| && 0 <= c < |sizes[t]| && counts[t][c] > 0 && x == sizes[t][c] - blowup
    ensures forall x :: x in DegreeBounds(sizes, counts, blowup) ==> x <= DegreeBounds(sizes, counts, blowup)[0]
  {
    var flat := Flatten(Flatten(ColumnBounds(sizes, counts, blowup)));
    var b := DegreeBounds(sizes, counts, blowup);
    SortReverseDedup(flat);
    forall x ensures x in b <==> exists t, c :: 0 <= t < |sizes| && 0 <= c < |sizes[t]| && counts[t][c] > 0 && x == sizes[t][c] - blowup {
      ColumnBoundsMember(sizes, counts, blowup, x);
    }
    FirstIsMax(b);
  }

  /** Sorting, reversing and deduplicating a list gives a strictly descending
      list of the same elements. */
  lemma SortReverseDedup(s: seq<nat>)
    ensures StrictlyDescending(Dedup(Reverse(SortAscending(s))))
    ensures forall x :: x in Dedup(Reverse(SortAscending(s))) <==> x in s
  {
    var sorted := SortAscending(s);
    SortAscendingSpec(s);
    ReverseAscending(sorted);
    DedupSpec(Reverse(sorted));
    forall x ensures x in sorted <==> x in s {
      assert x in sorted <==> x in multiset(sorted);
      assert x in s <==> x in multiset(s);
    }
  }

  /** The first element of a strictly descending list is its largest. */
  lemma FirstIsMax(b: seq<nat>)
    requires StrictlyDescending(b)
    ensures forall x :: x in b ==> x <= b[0]
  {
    forall x | x in b ensures x <= b[0] {
      var k :| 0 <= k < |b| && b[k] == x;
    }
  }

  /** `column_log_sizes` is `bounds` with the blowup added to each element:
      the second dedup changes nothing, so it too is strictly descending and
      starts with the largest log size. */
  lemma ColumnLogSizesSpec(bounds: seq<nat>, blowup: nat)
    requires StrictlyDescending(bounds)
    ensures |ColumnLogSizes(bounds, blowup)| == |bounds|
    ensures forall i :: 0 <= i < |bounds| ==> ColumnLogSizes(bounds, blowup)[i] == bounds[i] + blowup
    ensures StrictlyDescending(ColumnLogSizes(bounds, blowup))
  {
    DedupStrict(bounds);
  }

  /** A column log size is a bound shifted by the blowup, and every bound
      gives one. */
  lemma ColumnLogSizesMember(bounds: seq<nat>, blowup: nat, x: nat)
    requires StrictlyDescending(bounds)
    ensures x in ColumnLogSizes(bounds, blowup) <==> x >= blowup && x - blowup in bounds
  {
    ColumnLogSizesSpec(bounds, blowup);
    var cs := ColumnLogSizes(bounds, blowup);
    if x >= blowup && x - blowup in bounds {
      var i :| 0 <= i < |bounds| && bounds[i] == x - blowup;
      assert cs[i] == x;
    }
  }
}
