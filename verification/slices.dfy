/** Python list/str slicing and the consecutive-slice chunking that several
    scripts of the repository write as `[xs[i:i + n] for i in range(0, len(xs), n)]`. */
module Slices {

  function Min(a: int, b: int): int { if a <= b then a else b }

  function Max(a: int, b: int): int { if a >= b then a else b }

  /** Python's normalisation of one slice bound against a length. */
  function SliceBound(i: int, n: nat): (b: nat)
    ensures b <= n
    ensures 0 <= i <= n ==> b == i
  {
    if i < 0 then Max(0, n + i) else Min(i, n)
  }

  /** `xs[i:j]` with Python's rules: negative bounds count from the end,
      bounds are clamped, and a reversed range is empty. */
  function Slice<T>(xs: seq<T>, i: int, j: int): (r: seq<T>)
    ensures 0 <= i <= j <= |xs| ==> r == xs[i..j]
    ensures |r| <= |xs|
  {
    var a := SliceBound(i, |xs|);
    var b := SliceBound(j, |xs|);
    if a < b then xs[a..b] else []
  }

  /** `math.ceil(n / d)` on exact integers. */
  function CeilDiv(n: nat, d: nat): nat
    requires d > 0
  {
    (n + d - 1) / d
  }

  /** Concatenation of a list of lists, left to right. */
  function Flatten<T>(xss: seq<seq<T>>): seq<T>
  {
    if |xss| == 0 then [] else Flatten(xss[..|xss| - 1]) + xss[|xss| - 1]
  }

  lemma {:induction false} FlattenAppend<T>(a: seq<seq<T>>, b: seq<seq<T>>)
    ensures Flatten(a + b) == Flatten(a) + Flatten(b)
    decreases |b|
  {
    if |b| == 0 {
      assert a + b == a;
    } else {
      var b' := b[..|b| - 1];
      assert (a + b)[..|a + b| - 1] == a + b';
      FlattenAppend(a, b');
    }
  }

  lemma FlattenCons<T>(x: seq<T>, rest: seq<seq<T>>)
    ensures Flatten([x] + rest) == x + Flatten(rest)
  {
    FlattenAppend([x], rest);
    assert [x][..0] == [];
  }

  /** The chunks of a list: slice k is `xs[k*size : (k+1)*size]`, for
      k in `range(ceil(len(xs) / size))`. */
  function Chunks<T>(xs: seq<T>, size: nat): (r: seq<seq<T>>)
    requires size > 0
    ensures |r| == CeilDiv(|xs|, size)
  {
    seq(CeilDiv(|xs|, size), k requires 0 <= k < CeilDiv(|xs|, size) => Slice(xs, k * size, (k + 1) * size))
  }

  lemma CeilDivBounds(n: nat, d: nat)
    requires d > 0
    ensures CeilDiv(n, d) * d >= n
    ensures CeilDiv(n, d) * d < n + d
    ensures n == 0 <==> CeilDiv(n, d) == 0
  {
    var q, r := (n + d - 1) / d, (n + d - 1) % d;
    assert n + d - 1 == q * d + r;
  }

  lemma MulMono(a: nat, b: nat, d: nat)
    requires a <= b
    ensures a * d <= b * d
  {
    assert b * d - a * d == (b - a) * d;
  }

  lemma MulSucc(a: nat, d: nat)
    ensures (a + 1) * d == a * d + d
  {
  }

  /** Every index k below the chunk count starts inside the list. */
  lemma ChunkStart(n: nat, d: nat, k: nat)
    requires d > 0 && k < CeilDiv(n, d)
    ensures k * d < n
  {
    var q := CeilDiv(n, d);
    CeilDivBounds(n, d);
    MulMono(k, q - 1, d);
    MulSucc(q - 1, d);
  }

  /** Chunk k starts at k*size, is never empty, holds at most size
      elements, and only the last one may be shorter. */
  lemma ChunkAt<T>(xs: seq<T>, size: nat, k: nat)
    requires size > 0 && k < CeilDiv(|xs|, size)
    ensures k * size < |xs|
    ensures Chunks(xs, size)[k] == xs[k * size .. Min((k + 1) * size, |xs|)]
    ensures 0 < |Chunks(xs, size)[k]| <= size
    ensures k + 1 < CeilDiv(|xs|, size) ==> |Chunks(xs, size)[k]| == size
  {
    var lo, hi := k * size, (k + 1) * size;
    ChunkStart(|xs|, size, k);
    MulSucc(k, size);
    assert hi == lo + size;
    var end := Min(hi, |xs|);
    SliceWithin(xs, lo, hi);
    assert Chunks(xs, size)[k] == Slice(xs, lo, hi);
    if k + 1 < CeilDiv(|xs|, size) {
      ChunkStart(|xs|, size, k + 1);
    }
  }

  /** A slice starting inside the list runs to its end bound or to the end
      of the list, whichever comes first. */
  lemma SliceWithin<T>(xs: seq<T>, lo: nat, hi: int)
    requires lo < |xs| && lo < hi
    ensures Slice(xs, lo, hi) == xs[lo..Min(hi, |xs|)]
  {
  }

  lemma {:induction false} ChunksPrefix<T>(xs: seq<T>, size: nat, m: nat)
    requires size > 0 && 0 < m <= CeilDiv(|xs|, size)
    ensures Flatten(Chunks(xs, size)[..m]) == xs[..Min(m * size, |xs|)]
  {
    var c := Chunks(xs, size);
    var k := m - 1;
    var lo, hi := k * size, m * size;
    assert hi == (k + 1) * size;
    ChunkAt(xs, size, k);
    var end := Min(hi, |xs|);
    assert c[k] == xs[lo..end];
    if k == 0 {
      assert c[..k] == [];
    } else {
      ChunksPrefix(xs, size, k);
    }
    assert Flatten(c[..k]) == xs[..lo];
    FlattenSnoc(c, m);
    PrefixJoin(xs, lo, end);
  }

  lemma FlattenSnoc<T>(xss: seq<seq<T>>, m: nat)
    requires 0 < m <= |xss|
    ensures Flatten(xss[..m]) == Flatten(xss[..m - 1]) + xss[m - 1]
  {
    assert xss[..m][..m - 1] == xss[..m - 1];
  }

  lemma PrefixJoin<T>(xs: seq<T>, lo: nat, end: nat)
    requires lo <= end <= |xs|
    ensures xs[..lo] + xs[lo..end] == xs[..end]
  {
  }

  /** The chunks put back together are the original list: chunking loses
      and duplicates nothing. */
  lemma ChunksFlatten<T>(xs: seq<T>, size: nat)
    requires size > 0
    ensures Flatten(Chunks(xs, size)) == xs
  {
    var c := Chunks(xs, size);
    CeilDivBounds(|xs|, size);
    if |c| > 0 {
      ChunksPrefix(xs, size, |c|);
      assert c[..|c|] == c;
    }
  }

  /** Concatenation regrouped; the solver does not always find it unaided
      inside larger proofs. */
  lemma AppendAssoc<T>(a: seq<T>, b: seq<T>, c: seq<T>)
    ensures a + (b + c) == (a + b) + c
  {
  }

  lemma PrefixSnoc<T>(xs: seq<T>, i: nat)
    requires i < |xs|
    ensures xs[..i + 1] == xs[..i] + [xs[i]]
  {
  }
}
