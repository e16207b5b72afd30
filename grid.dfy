// Row-major pixel planes stored in one flat buffer, as the filter and the
// estimator keep them: sample (row, col) of a plane with stride `w` lives at
// index row * w + col.  The lemmas here are the few facts about that layout
// that need non-linear arithmetic; everything else in the model is linear.
module Grid {

  /** An 8-bit sample (`uint8_t`). */
  type Byte = v: int | 0 <= v < 256

  /** Flat index of sample (row, col) in a plane of stride `w`. */
  function Idx(w: int, row: int, col: int): int
  {
    row * w + col
  }

  /** The row and column a non-negative flat index stands for: the C
      quotient and remainder `n / w` and `n % w` (see `RowColIsDivMod`),
      written as repeated subtraction of whole rows. */
  function RowOf(w: int, n: int): (r: int)
    requires 0 < w && 0 <= n
    ensures 0 <= r
    decreases n
  {
    if n < w then 0 else RowOf(w, n - w) + 1
  }

  function ColOf(w: int, n: int): (c: int)
    requires 0 < w && 0 <= n
    ensures 0 <= c < w && c <= n
    decreases n
  {
    if n < w then n else ColOf(w, n - w)
  }

  /** The offset of y whole rows of stride w, y * w, counted out row by row
      (so that it stays one term until `RowOffsetIsProduct` is invoked). */
  function RowOffset(w: int, y: int): int
    decreases if y < 0 then -y else y
  {
    if y == 0 then 0 else if y > 0 then RowOffset(w, y - 1) + w else RowOffset(w, y + 1) - w
  }

  lemma {:induction false} RowOffsetIsProduct(w: int, y: int)
    ensures RowOffset(w, y) == y * w
    decreases if y < 0 then -y else y
  {
    if y > 0 {
      RowOffsetIsProduct(w, y - 1);
    } else if y < 0 {
      RowOffsetIsProduct(w, y + 1);
    }
  }

  lemma MulNonneg(a: int, b: int)
    requires 0 <= a && 0 <= b
    ensures 0 <= a * b
  {
  }

  /** Multiplying by a non-negative stride keeps the order of rows. */
  lemma MulMono(a: int, b: int, w: int)
    requires a <= b && 0 <= w
    ensures a * w <= b * w
  {
    MulNonneg(b - a, w);
  }

  /** All rows but the last of a plane of `h` rows. */
  lemma AllButOneRow(w: int, h: int)
    ensures w * (h - 1) == w * h - w
  {
  }

  /** Decoding the flat index of (row, col) gives back row and col. */
  lemma {:induction false} DivModIdx(w: int, row: int, col: int)
    requires 0 < w && 0 <= row && 0 <= col < w
    ensures 0 <= Idx(w, row, col)
    ensures RowOf(w, Idx(w, row, col)) == row && ColOf(w, Idx(w, row, col)) == col
  {
    if row > 0 {
      DivModIdx(w, row - 1, col);
      assert Idx(w, row, col) - w == Idx(w, row - 1, col);
    }
  }

  /** A flat index is the index of its own row and column. */
  lemma {:induction false} IdxOfRowCol(w: int, n: int)
    requires 0 < w && 0 <= n
    ensures Idx(w, RowOf(w, n), ColOf(w, n)) == n
    ensures 0 <= RowOf(w, n) && 0 <= ColOf(w, n) < w
    decreases n
  {
    if n >= w {
      IdxOfRowCol(w, n - w);
      assert Idx(w, RowOf(w, n), ColOf(w, n)) == Idx(w, RowOf(w, n - w), ColOf(w, n - w)) + w;
    }
  }

  /** Row and column are the quotient and remainder of the division by the
      stride, which for non-negative operands C and Dafny agree on. */
  lemma RowColIsDivMod(w: int, n: int)
    requires 0 < w && 0 <= n
    ensures RowOf(w, n) == n / w && ColOf(w, n) == n % w
  {
    IdxOfRowCol(w, n);
    QuotientUnique(w, RowOf(w, n), ColOf(w, n), n / w, n % w);
  }

  /** A number has one quotient and one remainder by a positive stride. */
  lemma QuotientUnique(w: int, q1: int, r1: int, q2: int, r2: int)
    requires 0 <= r1 < w && 0 <= r2 < w && q1 * w + r1 == q2 * w + r2
    ensures q1 == q2 && r1 == r2
  {
    assert (q1 - q2) * w == r2 - r1;
    if q1 > q2 {
      MulNonneg(q1 - q2 - 1, w);
      assert false;
    }
    if q1 < q2 {
      MulNonneg(q2 - q1 - 1, w);
      assert false;
    }
  }

  /** Sample (row, col) of a plane with `h` rows is one of its w * h
      samples, and its index decodes back to (row, col). */
  lemma SlotIndex(w: int, h: int, row: int, col: int)
    requires 0 <= row < h && 0 <= col < w
    ensures 0 <= row * w + col < h * w
    ensures (row * w + col) / w == row && (row * w + col) % w == col
  {
    IdxInPlane(w, h, row, col);
    DivModIdx(w, row, col);
    RowColIsDivMod(w, row * w + col);
  }

  /** The samples of a plane with `h` rows are exactly the indices below w * h. */
  lemma IdxInPlane(w: int, h: int, row: int, col: int)
    requires 0 < w && 0 <= col < w
    ensures 0 <= Idx(w, row, col) < w * h <==> 0 <= row < h
  {
    if 0 <= row < h {
      MulMono(row + 1, h, w);
      MulNonneg(row, w);
    }
    if row < 0 {
      MulMono(row, -1, w);
    }
    if row >= h {
      MulMono(h, row, w);
    }
  }

  /** The row of an index inside a plane of `h` rows is below `h`. */
  lemma RowInPlane(w: int, h: int, n: int)
    requires 0 < w && 0 <= n < w * h
    ensures 0 <= RowOf(w, n) < h
  {
    IdxOfRowCol(w, n);
    IdxInPlane(w, h, RowOf(w, n), ColOf(w, n));
  }

  lemma {:induction false} RowOffsetNonneg(w: int, y: int)
    requires 0 <= w && 0 <= y
    ensures 0 <= RowOffset(w, y)
  {
    if y > 0 {
      RowOffsetNonneg(w, y - 1);
    }
  }

  /** Row `y` of stride `w` and column `col` decode back to (y, col), and
      no other index decodes to them. */
  lemma OffsetDecodes(w: int, y: int, col: int)
    requires 0 < w && 0 <= y && 0 <= col < w
    ensures 0 <= RowOffset(w, y) + col
    ensures RowOf(w, RowOffset(w, y) + col) == y && ColOf(w, RowOffset(w, y) + col) == col
    ensures forall n :: 0 <= n && RowOf(w, n) == y && ColOf(w, n) == col ==> n == RowOffset(w, y) + col
  {
    RowOffsetIsProduct(w, y);
    DivModIdx(w, y, col);
    forall n | 0 <= n && RowOf(w, n) == y && ColOf(w, n) == col
      ensures n == RowOffset(w, y) + col
    {
      IdxOfRowCol(w, n);
    }
  }

  /** Column `col` of row `y` lies in column `col`. */
  lemma {:induction false} ColOfOffset(w: int, y: int, col: int)
    requires 0 < w && 0 <= y && 0 <= col < w
    ensures 0 <= RowOffset(w, y) && ColOf(w, RowOffset(w, y) + col) == col
    decreases y
  {
    if y > 0 {
      ColOfOffset(w, y - 1, col);
    }
  }

  /** Sample `n` lies in the row that starts at `RowOffset(w, RowOf(w, n))`. */
  lemma RowStart(w: int, h: int, n: int)
    requires 0 < w && 0 <= n < w * h
    ensures 0 <= RowOffset(w, RowOf(w, n)) && RowOffset(w, RowOf(w, n)) + ColOf(w, n) == n
    ensures RowOffset(w, RowOf(w, n)) + w <= w * h
  {
    RowInPlane(w, h, n);
    IdxOfRowCol(w, n);
    RowOffsetIsProduct(w, RowOf(w, n));
    MulMono(RowOf(w, n) + 1, h, w);
  }

  /** Every index of a plane with `h` rows lies in one of its rows. */
  lemma RowsInPlane(w: int, h: int)
    requires 0 < w
    ensures forall n :: 0 <= n < w * h ==> RowOf(w, n) < h
  {
    forall n | 0 <= n < w * h
      ensures RowOf(w, n) < h
    {
      RowInPlane(w, h, n);
    }
  }

  /** Only one index of a plane decodes to a given row and column. */
  lemma CellUnique(w: int, h: int, row: int, col: int)
    requires 0 < w
    ensures forall n :: 0 <= n < w * h && RowOf(w, n) == row && ColOf(w, n) == col ==> n == Idx(w, row, col)
  {
    forall n | 0 <= n < w * h && RowOf(w, n) == row && ColOf(w, n) == col
      ensures n == Idx(w, row, col)
    {
      IdxOfRowCol(w, n);
    }
  }

  /** Moving `k` whole rows from index n stays in the plane exactly when the
      target row does, and keeps the column. */
  lemma RowStep(w: int, h: int, n: int, k: int)
    requires 0 < w && 0 <= n < w * h
    requires 0 <= RowOf(w, n) + k < h
    ensures 0 <= n + k * w < w * h
    ensures RowOf(w, n + k * w) == RowOf(w, n) + k && ColOf(w, n + k * w) == ColOf(w, n)
  {
    IdxOfRowCol(w, n);
    var r, c := RowOf(w, n), ColOf(w, n);
    assert n + k * w == Idx(w, r + k, c);
    DivModIdx(w, r + k, c);
    IdxInPlane(w, h, r + k, c);
  }

  /** Moving `k` columns from index n stays in the row when the target column does. */
  lemma ColStep(w: int, h: int, n: int, k: int)
    requires 0 < w && 0 <= n < w * h
    requires 0 <= ColOf(w, n) + k < w
    ensures 0 <= n + k < w * h
    ensures RowOf(w, n + k) == RowOf(w, n) && ColOf(w, n + k) == ColOf(w, n) + k
  {
    IdxOfRowCol(w, n);
    RowInPlane(w, h, n);
    var r, c := RowOf(w, n), ColOf(w, n);
    assert n + k == Idx(w, r, c + k);
    DivModIdx(w, r, c + k);
    IdxInPlane(w, h, r, c + k);
  }

  /** `memcpy(dst + at, src + from, count)` between two distinct buffers. */
  method MemCopy<T>(dst: array<T>, at: int, src: array<T>, from: int, count: int)
    requires dst != src && 0 <= count
    requires 0 <= at && at + count <= dst.Length && 0 <= from && from + count <= src.Length
    modifies dst
    ensures dst[at..at + count] == src[from..from + count]
    ensures dst[..at] == old(dst[..at]) && dst[at + count..] == old(dst[at + count..])
  {
    var k := 0;
    while k < count
      invariant 0 <= k <= count
      invariant forall n :: at <= n < at + k ==> dst[n] == src[from + (n - at)]
      invariant forall n :: 0 <= n < dst.Length && !(at <= n < at + k) ==> dst[n] == old(dst[n])
    {
      dst[at + k] := src[from + k];
      k := k + 1;
    }
    assert dst[at..at + count] == src[from..from + count];
    assert dst[..at] == old(dst[..at]);
    assert dst[at + count..] == old(dst[at + count..]);
  }

  /** `memcpy(buf + at, buf + from, count)` within one buffer, for ranges
      that do not overlap. */
  method MemCopyWithin<T>(buf: array<T>, at: int, from: int, count: int)
    requires 0 <= count && 0 <= at && at + count <= buf.Length && 0 <= from && from + count <= buf.Length
    requires at + count <= from || from + count <= at
    modifies buf
    ensures buf[at..at + count] == old(buf[from..from + count])
    ensures buf[..at] == old(buf[..at]) && buf[at + count..] == old(buf[at + count..])
  {
    var k := 0;
    while k < count
      invariant 0 <= k <= count
      invariant forall n :: at <= n < at + k ==> buf[n] == old(buf[from + (n - at)])
      invariant forall n :: 0 <= n < buf.Length && !(at <= n < at + k) ==> buf[n] == old(buf[n])
    {
      buf[at + k] := buf[from + k];
      k := k + 1;
    }
    assert buf[at..at + count] == old(buf[from..from + count]);
    assert buf[..at] == old(buf[..at]);
    assert buf[at + count..] == old(buf[at + count..]);
  }

  /** `memset(buf + at, v, count)`. */
  method MemSet<T>(buf: array<T>, at: int, v: T, count: int)
    requires 0 <= count && 0 <= at && at + count <= buf.Length
    modifies buf
    ensures buf[at..at + count] == seq(count, _ => v)
    ensures buf[..at] == old(buf[..at]) && buf[at + count..] == old(buf[at + count..])
  {
    var k := 0;
    while k < count
      invariant 0 <= k <= count
      invariant forall n :: at <= n < at + k ==> buf[n] == v
      invariant forall n :: 0 <= n < buf.Length && !(at <= n < at + k) ==> buf[n] == old(buf[n])
    {
      buf[at + k] := v;
      k := k + 1;
    }
    assert buf[at..at + count] == seq(count, _ => v);
    assert buf[..at] == old(buf[..at]);
    assert buf[at + count..] == old(buf[at + count..]);
  }

  /** Two buffers that agree up to `k` agree on every range below `k`. */
  lemma SliceOfPrefix<T>(a: seq<T>, b: seq<T>, k: int, lo: int, hi: int)
    requires 0 <= lo <= hi <= k <= |a| && k <= |b| && a[..k] == b[..k]
    ensures a[lo..hi] == b[lo..hi] && a[..hi] == b[..hi]
  {
    assert a[lo..hi] == a[..k][lo..hi];
    assert b[lo..hi] == b[..k][lo..hi];
    assert a[..hi] == a[..k][..hi];
    assert b[..hi] == b[..k][..hi];
  }

  /** Two buffers that agree from `k` on agree on every range above `k`. */
  lemma SliceOfSuffix<T>(a: seq<T>, b: seq<T>, k: int, lo: int, hi: int)
    requires 0 <= k <= lo <= hi <= |a| && |a| == |b| && a[k..] == b[k..]
    ensures a[lo..hi] == b[lo..hi] && a[lo..] == b[lo..]
  {
    forall i | lo <= i < |a|
      ensures a[i] == b[i]
    {
      assert a[i] == a[k..][i - k] && b[i] == b[k..][i - k];
    }
    assert a[lo..hi] == b[lo..hi];
    assert a[lo..] == b[lo..];
  }

  /** `y + k` rows of stride `w` are `y` rows and then `k` more. */
  lemma RowsAfter(w: int, y: int, k: int)
    ensures RowOffset(w, y + k) == RowOffset(w, y) + k * w
  {
    RowOffsetIsProduct(w, y + k);
    RowOffsetIsProduct(w, y);
  }

  /** The same for a number of further rows that is not a constant. */
  lemma RowOffsetAdd(w: int, y: int, k: int)
    ensures RowOffset(w, y + k) == RowOffset(w, y) + RowOffset(w, k)
  {
    RowOffsetIsProduct(w, y + k);
    RowOffsetIsProduct(w, y);
    RowOffsetIsProduct(w, k);
  }

  /** Row `y` of a band of `n` rows lies inside the band. */
  lemma RowInBand(w: int, y: int, n: int)
    requires 0 <= w && 0 <= y < n
    ensures 0 <= RowOffset(w, y) && RowOffset(w, y) + w <= n * w
  {
    RowOffsetIsProduct(w, y);
    MulMono(y + 1, n, w);
    MulNonneg(y, w);
  }

  /** Every one of the first `h` rows lies before row `h`. */
  lemma {:induction false} RowsInside(w: int, h: int)
    requires 0 <= w && 0 <= h
    ensures forall r :: 0 <= r < h ==> 0 <= RowOffset(w, r) && RowOffset(w, r) + w <= RowOffset(w, h)
    decreases h
  {
    if h > 0 {
      RowsInside(w, h - 1);
    }
  }

  /** Row `k` of the first `h` rows ends no later than row `h` begins. */
  lemma {:induction false} RowWithin(w: int, k: int, h: int)
    requires 0 <= w && 0 <= k < h
    ensures 0 <= RowOffset(w, k) && RowOffset(w, k) + w <= RowOffset(w, h)
  {
    RowOffsetAdd(w, k + 1, h - k - 1);
    RowOffsetNonneg(w, k);
    RowOffsetNonneg(w, h - k - 1);
  }

  /** Every non-negative index is the start of its row plus its column. */
  lemma {:induction false} OffsetOfRowCol(w: int, n: int)
    requires 0 < w && 0 <= n
    ensures RowOffset(w, RowOf(w, n)) + ColOf(w, n) == n
    decreases n
  {
    if n >= w {
      OffsetOfRowCol(w, n - w);
    }
  }

  /** An index before row `k` lies in a row above `k`. */
  lemma {:induction false} RowOfBelow(w: int, n: int, k: int)
    requires 0 < w && 0 <= k && 0 <= n < RowOffset(w, k)
    ensures RowOf(w, n) < k
    decreases n
  {
    if n >= w {
      RowOfBelow(w, n - w, k - 1);
    }
  }
}
