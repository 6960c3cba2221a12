/** Shared vocabulary: bytes, whole-frame arithmetic and sums over packet lengths. */
module Core {

  type Byte = x: int | 0 <= x < 256

  datatype Option<+T> = None | Some(value: T)

  function Min(a: int, b: int): int {
    if a <= b then a else b
  }

  function Max(a: int, b: int): int {
    if a >= b then a else b
  }

  function Sum(xs: seq<nat>): nat {
    if xs == [] then 0 else Sum(xs[..|xs| - 1]) + xs[|xs| - 1]
  }

  /** Frames carried by a descriptor list, each length divided on its own as the callbacks do. */
  function Frames(lengths: seq<nat>, stride: nat): nat
    requires stride > 0
  {
    if lengths == [] then 0
    else Frames(lengths[..|lengths| - 1], stride) + lengths[|lengths| - 1] / stride
  }

  /** Bytes as a number, the first one least. */
  function Unsigned(bytes: seq<Byte>): nat {
    if bytes == [] then 0 else bytes[0] + 0x100 * Unsigned(bytes[1..])
  }

  lemma UnsignedNext(bytes: seq<Byte>, k: nat)
    requires k < |bytes|
    ensures Unsigned(bytes[k..]) == bytes[k] + 0x100 * Unsigned(bytes[k + 1..])
  {
    assert bytes[k..][1..] == bytes[k + 1..];
  }

  ghost predicate AllWhole(lengths: seq<nat>, stride: nat)
    requires stride > 0
  {
    forall k :: 0 <= k < |lengths| ==> lengths[k] % stride == 0
  }

  lemma WholeSum(a: nat, b: nat, stride: nat)
    requires stride > 0 && a % stride == 0 && b % stride == 0
    ensures (a + b) % stride == 0
    ensures (a + b) / stride == a / stride + b / stride
  {
    var x, y := a / stride, b / stride;
    assert a + b == (x + y) * stride;
    WholeProduct(x + y, stride);
  }

  lemma LargeMultiple(d: int, stride: nat)
    requires stride > 0 && d != 0
    ensures d * stride >= stride || d * stride <= 0 - stride
  {
    if d > 0 {
      assert (d - 1) * stride >= 0;
    } else {
      assert (0 - d - 1) * stride >= 0;
    }
  }

  lemma Distribute(a: nat, b: nat, stride: nat)
    ensures (a + b) * stride == a * stride + b * stride
  {
  }

  lemma WholeProduct(n: nat, stride: nat)
    requires stride > 0
    ensures n * stride % stride == 0 && n * stride / stride == n
  {
    DivModUnique(n, 0, stride);
  }

  lemma DivModUnique(q: nat, r: nat, stride: nat)
    requires r < stride
    ensures (q * stride + r) / stride == q && (q * stride + r) % stride == r
  {
    var x := q * stride + r;
    var d := q - x / stride;
    assert d * stride == x % stride - r;
    if d != 0 {
      LargeMultiple(d, stride);
    }
  }

  lemma {:induction false} WholeLengths(lengths: seq<nat>, stride: nat)
    requires stride > 0 && AllWhole(lengths, stride)
    ensures Sum(lengths) % stride == 0 && Sum(lengths) / stride == Frames(lengths, stride)
  {
    if lengths != [] {
      var front := lengths[..|lengths| - 1];
      WholeLengths(front, stride);
      WholeSum(Sum(front), lengths[|lengths| - 1], stride);
    } else {
      WholeProduct(0, stride);
    }
  }

  lemma WholeDifference(a: nat, b: nat, stride: nat)
    requires stride > 0 && b <= a && a % stride == 0 && b % stride == 0
    ensures (a - b) % stride == 0 && (a - b) / stride == a / stride - b / stride
  {
    var x, y := a / stride, b / stride;
    assert a - b == (x - y) * stride;
    WholeProduct(x - y, stride);
  }

  lemma {:induction false} SumBound(xs: seq<nat>, bound: nat)
    requires forall k :: 0 <= k < |xs| ==> xs[k] <= bound
    ensures Sum(xs) <= |xs| * bound
  {
    if xs != [] {
      SumBound(xs[..|xs| - 1], bound);
      assert (|xs| - 1) * bound + bound == |xs| * bound;
    }
  }

  lemma {:induction false} SumConcat(xs: seq<nat>, ys: seq<nat>)
    ensures Sum(xs + ys) == Sum(xs) + Sum(ys)
  {
    if ys == [] {
      assert xs + ys == xs;
    } else {
      SumConcat(xs, ys[..|ys| - 1]);
      assert (xs + ys)[..|xs + ys| - 1] == xs + ys[..|ys| - 1];
    }
  }

  lemma SumPrefix(xs: seq<nat>, k: nat)
    requires k <= |xs|
    ensures Sum(xs[..k]) <= Sum(xs)
  {
    SumConcat(xs[..k], xs[k..]);
    assert xs[..k] + xs[k..] == xs;
  }

  /** Where the byte `k` past a cursor lives in a ring: one step of wrap at most. */
  lemma WrapIndex(cursor: nat, k: nat, capacity: nat)
    requires k <= capacity && 0 < capacity
    ensures var at := cursor % capacity + k;
            (cursor + k) % capacity == if at < capacity then at else at - capacity
  {
    var q, off := cursor / capacity, cursor % capacity;
    if off + k < capacity {
      assert cursor + k == q * capacity + (off + k);
      DivModUnique(q, off + k, capacity);
    } else {
      assert cursor + k == (q + 1) * capacity + (off + k - capacity);
      DivModUnique(q + 1, off + k - capacity, capacity);
    }
  }

  /** Cursors less than a ring apart never share a slot. */
  lemma DistinctModulo(a: nat, b: nat, capacity: nat)
    requires a < b < a + capacity
    ensures a % capacity != b % capacity
  {
    WrapIndex(a, b - a, capacity);
  }

  lemma DivMonotone(a: nat, b: nat, stride: nat)
    requires stride > 0 && a <= b
    ensures a / stride <= b / stride
  {
    var d := a / stride - b / stride;
    assert d * stride == a - a % stride - (b - b % stride);
    if d > 0 {
      LargeMultiple(d, stride);
    }
  }

  /** What lies between two cursors of a ring, read from storage modulo its length. */
  ghost function Window<T>(data: seq<T>, cursor: nat, length: nat): (r: seq<T>)
    requires |data| > 0
    ensures |r| == length
    ensures forall k :: 0 <= k < length ==> r[k] == data[(cursor + k) % |data|]
  {
    seq(length, k requires 0 <= k < length => data[(cursor + k) % |data|])
  }
}
