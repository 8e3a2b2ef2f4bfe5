/**
 * Splitting a fetched row sequence into batches of at most `bs` rows: the
 * Python slices `rows[i:i + batch_size]` for `i` in `range(0, len(rows),
 * batch_size)` and the PHP pages `LIMIT $batchSize OFFSET $offset` for
 * `$offset = 0, bs, 2bs, ...` while `$offset < $rowCount`.
 */
module Batching {

  function Min(a: int, b: int): int
  {
    if a <= b then a else b
  }

  /** The offset of batch `k`: 0, bs, 2 * bs, ... (the loop step `offset += bs`). */
  function Offset(k: nat, bs: nat): nat
  {
    if k == 0 then 0 else Offset(k - 1, bs) + bs
  }

  /** The offset of batch `k` is `k * bs`. */
  lemma {:induction false} OffsetIsProduct(k: nat, bs: nat)
    ensures Offset(k, bs) == k * bs
  {
    if k > 0 {
      OffsetIsProduct(k - 1, bs);
      MulSucc(k - 1, bs);
    }
  }

  /** A later batch starts at least one batch further on. */
  lemma {:induction false} OffsetMonotone(j: nat, k: nat, bs: nat)
    requires j < k
    ensures Offset(j, bs) + bs <= Offset(k, bs)
    decreases k
  {
    if j + 1 < k {
      OffsetMonotone(j, k - 1, bs);
    }
  }

  /** The batch that starts at `offset`. */
  function Slice<T>(s: seq<T>, offset: nat, bs: nat): seq<T>
    requires offset <= |s|
  {
    s[offset..Min(offset + bs, |s|)]
  }

  /** The batches in order: the first `bs` items, then the batches of the rest. */
  function Batches<T>(s: seq<T>, bs: nat): seq<seq<T>>
    requires bs > 0
    decreases |s|
  {
    if |s| == 0 then [] else [s[..Min(bs, |s|)]] + Batches(s[Min(bs, |s|)..], bs)
  }

  function Flatten<T>(ss: seq<seq<T>>): seq<T>
  {
    if |ss| == 0 then [] else ss[0] + Flatten(ss[1..])
  }

  /** Every batch holds between one and `bs` items. */
  lemma {:induction false} BatchesBounded<T>(s: seq<T>, bs: nat)
    requires bs > 0
    ensures forall k :: 0 <= k < |Batches(s, bs)| ==> 0 < |Batches(s, bs)[k]| <= bs
    decreases |s|
  {
    if |s| > 0 {
      BatchesBounded(s[Min(bs, |s|)..], bs);
    }
  }

  /** The batches, concatenated, are the input in order: nothing lost, repeated or reordered. */
  lemma {:induction false} BatchesFlatten<T>(s: seq<T>, bs: nat)
    requires bs > 0
    ensures Flatten(Batches(s, bs)) == s
    decreases |s|
  {
    if |s| > 0 {
      var m := Min(bs, |s|);
      BatchesCons(s, bs);
      BatchesFlatten(s[m..], bs);
      assert s[..m] + s[m..] == s;
    }
  }

  /** A non-empty input: the first batch, then the batches of the rest. */
  lemma BatchesCons<T>(s: seq<T>, bs: nat)
    requires bs > 0 && |s| > 0
    ensures var B := Batches(s, bs);
            var m := Min(bs, |s|);
            && |B| == 1 + |Batches(s[m..], bs)| && B[0] == s[..m] && B[1..] == Batches(s[m..], bs)
            && Flatten(B) == s[..m] + Flatten(Batches(s[m..], bs))
  {
  }

  /** Batch `k > 0` of a non-empty input is batch `k - 1` of the rest. */
  lemma BatchesShift<T>(s: seq<T>, bs: nat, k: nat)
    requires bs > 0 && |s| > 0 && k > 0
    ensures var rest := Batches(s[Min(bs, |s|)..], bs);
            && (k < |Batches(s, bs)| <==> k - 1 < |rest|)
            && (k < |Batches(s, bs)| ==> Batches(s, bs)[k] == rest[k - 1])
  {
    BatchesCons(s, bs);
  }

  /** A slice of a suffix is a slice of the whole. */
  lemma SuffixSlice<T>(s: seq<T>, d: nat, a: nat, b: nat)
    requires d <= |s| && a <= b <= |s| - d
    ensures s[d..][a..b] == s[d + a..d + b]
  {
  }

  /**
   * Batch `k` exists exactly when its offset is below the length (the loop
   * condition of both scripts), and it is the slice at that offset.
   */
  lemma {:induction false} BatchAt<T>(s: seq<T>, bs: nat, k: nat)
    requires bs > 0
    ensures k < |Batches(s, bs)| <==> Offset(k, bs) < |s|
    ensures k < |Batches(s, bs)| ==> Batches(s, bs)[k] == Slice(s, Offset(k, bs), bs)
    decreases |s|
  {
    if k == 0 {
      if |s| > 0 {
        BatchesCons(s, bs);
      }
    } else if |s| > 0 {
      var m := Min(bs, |s|);
      var rest := s[m..];
      var o := Offset(k - 1, bs);
      assert Offset(k, bs) == o + bs;
      BatchesShift(s, bs, k);
      BatchAt(rest, bs, k - 1);
      if m == bs && o < |rest| {
        var e := Min(o + bs, |rest|);
        SuffixSlice(s, bs, o, e);
        assert bs + e == Min(o + bs + bs, |s|);
      }
    }
  }

  /** Concatenating one more batch appends its items. */
  lemma {:induction false} FlattenSnoc<T>(ss: seq<seq<T>>, x: seq<T>)
    ensures Flatten(ss + [x]) == Flatten(ss) + x
    decreases |ss|
  {
    if |ss| == 0 {
      assert [x][1..] == [];
    } else {
      assert (ss + [x])[1..] == ss[1..] + [x];
      FlattenSnoc(ss[1..], x);
    }
  }

  /** The first `k` batches concatenated are the first `k - 1` and then batch `k - 1`. */
  lemma FlattenPrefix<T>(ss: seq<seq<T>>, k: nat)
    requires 0 < k <= |ss|
    ensures Flatten(ss[..k]) == Flatten(ss[..k - 1]) + ss[k - 1]
  {
    assert ss[..k] == ss[..k - 1] + [ss[k - 1]];
    FlattenSnoc(ss[..k - 1], ss[k - 1]);
  }

  /** Item `i` of batch `k` is the item at offset `Offset(k, bs) + i` of the input. */
  lemma BatchItem<T>(s: seq<T>, bs: nat, k: nat, i: nat)
    requires bs > 0 && k < |Batches(s, bs)| && i < |Batches(s, bs)[k]|
    ensures i < bs && Offset(k, bs) + i < |s| && Batches(s, bs)[k][i] == s[Offset(k, bs) + i]
    ensures Batches(s, bs)[k][i] in s
  {
    BatchAt(s, bs, k);
  }

  /** Items of two different batches sit at different positions of the input. */
  lemma BatchPositionsDisjoint(bs: nat, k: nat, i: nat, k': nat, i': nat)
    requires i < bs && i' < bs && k != k'
    ensures Offset(k, bs) + i != Offset(k', bs) + i'
  {
    if k < k' {
      OffsetMonotone(k, k', bs);
    } else {
      OffsetMonotone(k', k, bs);
    }
  }

  /** The batches number the ceiling of `|s| / bs`, stated without division. */
  lemma {:induction false} BatchesCeiling<T>(s: seq<T>, bs: nat)
    requires bs > 0
    ensures |s| <= |Batches(s, bs)| * bs < |s| + bs
    decreases |s|
  {
    if |s| > 0 {
      var m := Min(bs, |s|);
      var n := |Batches(s[m..], bs)|;
      BatchesCeiling(s[m..], bs);
      MulSucc(n, bs);
    }
  }

  /** The number of batches is the ceiling of `|s| / bs`. */
  lemma BatchesCount<T>(s: seq<T>, bs: nat)
    requires bs > 0
    ensures |Batches(s, bs)| == (|s| + bs - 1) / bs
  {
    BatchesCeiling(s, bs);
    DivUnique(|s| + bs - 1, bs, |Batches(s, bs)|);
  }

  lemma MulSucc(k: int, d: int)
    ensures (k + 1) * d == k * d + d
  {
  }

  /** Integer division is determined by the quotient-remainder bounds. */
  lemma DivUnique(x: int, d: int, q: int)
    requires 0 < d && 0 <= x - q * d < d
    ensures x / d == q
  {
    var a := x / d - q;
    assert a * d == (x - q * d) - x % d;
    if a >= 1 {
      MulAtLeast(a, d);
    } else if a <= -1 {
      MulAtLeast(-a, d);
    }
  }

  lemma MulAtLeast(a: int, d: int)
    requires a >= 1 && d > 0
    ensures a * d >= d
  {
  }
}
