// The block-matching metric: sum of absolute differences (SAD) between two
// blocks of 8-bit samples that live in planes of the same stride.
//
// The source computes it with MMX instructions.  What is modelled of them is
// what the result depends on: each byte difference is formed with two
// saturating subtractions and an OR, the differences are gathered into four
// 16-bit saturating lanes (lane k receives the columns c with c % 4 == k), and
// the four lanes are added at the end.  The methods are proved equal to the
// plain scalar sum `BlockSad`, which shows that no lane ever saturates.
module Metric {
  import opened Grid

  /** |a - b| */
  function AbsDiff(a: int, b: int): (d: nat)
    ensures d == a - b || d == b - a
  {
    if a < b then b - a else a - b
  }

  /** `rows` rows of `cols` samples, `stride` apart, starting at `base`,
      all lie inside a buffer of length `len`. */
  predicate InBlock(len: int, base: int, stride: nat, rows: nat, cols: nat)
    decreases rows
  {
    rows == 0 || (0 <= base && base + cols <= len && InBlock(len, base + stride, stride, rows - 1, cols))
  }

  /** The block is in range exactly when its first sample and the end of its
      last row are. */
  lemma {:induction false} InBlockSpan(len: int, base: int, stride: nat, rows: nat, cols: nat)
    requires 0 < rows
    ensures InBlock(len, base, stride, rows, cols) <==> 0 <= base && base + (rows - 1) * stride + cols <= len
    decreases rows
  {
    if rows > 1 {
      InBlockSpan(len, base + stride, stride, rows - 1, cols);
      assert (rows - 1) * stride == stride + (rows - 2) * stride;
      MulNonneg(rows - 2, stride);
    }
  }

  /** The top `a` rows and the bottom `b` rows of an in-range block are in range. */
  lemma {:induction false} InBlockRows(len: int, base: int, stride: nat, a: nat, b: nat, cols: nat)
    requires InBlock(len, base, stride, a + b, cols)
    ensures InBlock(len, base, stride, a, cols) && InBlock(len, base + a * stride, stride, b, cols)
    decreases a
  {
    if a > 0 {
      InBlockRows(len, base + stride, stride, a - 1, b, cols);
      assert base + stride + (a - 1) * stride == base + a * stride;
    }
  }

  /** The left `a` columns and the right `b` columns of an in-range block are in range. */
  lemma {:induction false} InBlockCols(len: int, base: int, stride: nat, rows: nat, a: nat, b: nat)
    requires InBlock(len, base, stride, rows, a + b)
    ensures InBlock(len, base, stride, rows, a) && InBlock(len, base + a, stride, rows, b)
    decreases rows
  {
    if rows > 0 {
      InBlockCols(len, base + stride, stride, rows - 1, a, b);
    }
  }

  /** Scalar SAD of one row: the sum of |p[i + c] - q[j + c]| for c < n. */
  function RowSad(p: seq<Byte>, i: int, q: seq<Byte>, j: int, n: nat): nat
    requires 0 <= i && i + n <= |p| && 0 <= j && j + n <= |q|
  {
    if n == 0 then 0 else RowSad(p, i, q, j, n - 1) + AbsDiff(p[i + n - 1], q[j + n - 1])
  }

  /** Scalar SAD of a rows x cols block: both block addresses advance by the
      same stride on every row. */
  function BlockSad(p: seq<Byte>, i: int, q: seq<Byte>, j: int, stride: nat, rows: nat, cols: nat): nat
    requires InBlock(|p|, i, stride, rows, cols) && InBlock(|q|, j, stride, rows, cols)
    decreases rows
  {
    if rows == 0 then 0
    else
      RowSad(p, i, q, j, cols) + BlockSad(p, i + stride, q, j + stride, stride, rows - 1, cols)
  }

  // ---------------------------------------------------------------------
  // Properties of the scalar SAD

  lemma {:induction false} RowSadSymmetric(p: seq<Byte>, i: int, q: seq<Byte>, j: int, n: nat)
    requires 0 <= i && i + n <= |p| && 0 <= j && j + n <= |q|
    ensures RowSad(p, i, q, j, n) == RowSad(q, j, p, i, n)
  {
    if n > 0 {
      RowSadSymmetric(p, i, q, j, n - 1);
    }
  }

  /** SAD(A, B) == SAD(B, A). */
  lemma {:induction false} BlockSadSymmetric(p: seq<Byte>, i: int, q: seq<Byte>, j: int, stride: nat, rows: nat, cols: nat)
    requires InBlock(|p|, i, stride, rows, cols) && InBlock(|q|, j, stride, rows, cols)
    ensures BlockSad(p, i, q, j, stride, rows, cols) == BlockSad(q, j, p, i, stride, rows, cols)
    decreases rows
  {
    if rows > 0 {
      RowSadSymmetric(p, i, q, j, cols);
      BlockSadSymmetric(p, i + stride, q, j + stride, stride, rows - 1, cols);
    }
  }

  lemma {:induction false} RowSadSelf(p: seq<Byte>, i: int, n: nat)
    requires 0 <= i && i + n <= |p|
    ensures RowSad(p, i, p, i, n) == 0
  {
    if n > 0 {
      RowSadSelf(p, i, n - 1);
    }
  }

  /** SAD(A, A) == 0. */
  lemma {:induction false} BlockSadSelf(p: seq<Byte>, i: int, stride: nat, rows: nat, cols: nat)
    requires InBlock(|p|, i, stride, rows, cols)
    ensures BlockSad(p, i, p, i, stride, rows, cols) == 0
    decreases rows
  {
    if rows > 0 {
      RowSadSelf(p, i, cols);
      BlockSadSelf(p, i + stride, stride, rows - 1, cols);
    }
  }

  /** Row by row, the two blocks hold the same samples. */
  predicate SameBlock(p: seq<Byte>, i: int, q: seq<Byte>, j: int, stride: nat, rows: nat, cols: nat)
    requires InBlock(|p|, i, stride, rows, cols) && InBlock(|q|, j, stride, rows, cols)
    decreases rows
  {
    rows == 0 ||
    (p[i..i + cols] == q[j..j + cols] && SameBlock(p, i + stride, q, j + stride, stride, rows - 1, cols))
  }

  lemma {:induction false} RowSadZero(p: seq<Byte>, i: int, q: seq<Byte>, j: int, n: nat)
    requires 0 <= i && i + n <= |p| && 0 <= j && j + n <= |q|
    requires p[i..i + n] == q[j..j + n]
    ensures RowSad(p, i, q, j, n) == 0
  {
    if n > 0 {
      assert p[i + n - 1] == p[i..i + n][n - 1] == q[j..j + n][n - 1] == q[j + n - 1];
      assert p[i..i + n - 1] == p[i..i + n][..n - 1];
      assert q[j..j + n - 1] == q[j..j + n][..n - 1];
      RowSadZero(p, i, q, j, n - 1);
    }
  }

  /** Two blocks with equal samples have SAD 0. */
  lemma {:induction false} BlockSadEqual(p: seq<Byte>, i: int, q: seq<Byte>, j: int, stride: nat, rows: nat, cols: nat)
    requires InBlock(|p|, i, stride, rows, cols) && InBlock(|q|, j, stride, rows, cols)
    requires SameBlock(p, i, q, j, stride, rows, cols)
    ensures BlockSad(p, i, q, j, stride, rows, cols) == 0
    decreases rows
  {
    if rows > 0 {
      RowSadZero(p, i, q, j, cols);
      BlockSadEqual(p, i + stride, q, j + stride, stride, rows - 1, cols);
    }
  }

  lemma {:induction false} RowSadBound(p: seq<Byte>, i: int, q: seq<Byte>, j: int, n: nat)
    requires 0 <= i && i + n <= |p| && 0 <= j && j + n <= |q|
    ensures RowSad(p, i, q, j, n) <= 255 * n
  {
    if n > 0 {
      RowSadBound(p, i, q, j, n - 1);
    }
  }

  /** 0 <= SAD <= 255 * rows * cols. */
  lemma {:induction false} BlockSadBound(p: seq<Byte>, i: int, q: seq<Byte>, j: int, stride: nat, rows: nat, cols: nat)
    requires InBlock(|p|, i, stride, rows, cols) && InBlock(|q|, j, stride, rows, cols)
    ensures BlockSad(p, i, q, j, stride, rows, cols) <= 255 * cols * rows
    decreases rows
  {
    if rows > 0 {
      RowSadBound(p, i, q, j, cols);
      BlockSadBound(p, i + stride, q, j + stride, stride, rows - 1, cols);
      assert 255 * cols * (rows - 1) + 255 * cols == 255 * cols * rows;
    }
  }

  /** A row splits into its first `a` and its last `b` samples. */
  lemma {:induction false} RowSadSplit(p: seq<Byte>, i: int, q: seq<Byte>, j: int, a: nat, b: nat)
    requires 0 <= i && i + a + b <= |p| && 0 <= j && j + a + b <= |q|
    ensures RowSad(p, i, q, j, a + b) == RowSad(p, i, q, j, a) + RowSad(p, i + a, q, j + a, b)
  {
    if b > 0 {
      RowSadSplit(p, i, q, j, a, b - 1);
    }
  }

  /** A block splits into its left `a` and its right `b` columns. */
  lemma {:induction false} BlockSadSplitCols(p: seq<Byte>, i: int, q: seq<Byte>, j: int, stride: nat, rows: nat, a: nat, b: nat)
    requires InBlock(|p|, i, stride, rows, a + b) && InBlock(|q|, j, stride, rows, a + b)
    ensures InBlock(|p|, i, stride, rows, a) && InBlock(|q|, j, stride, rows, a)
    ensures InBlock(|p|, i + a, stride, rows, b) && InBlock(|q|, j + a, stride, rows, b)
    ensures BlockSad(p, i, q, j, stride, rows, a + b)
         == BlockSad(p, i, q, j, stride, rows, a) + BlockSad(p, i + a, q, j + a, stride, rows, b)
    decreases rows
  {
    if rows > 0 {
      RowSadSplit(p, i, q, j, a, b);
      BlockSadSplitCols(p, i + stride, q, j + stride, stride, rows - 1, a, b);
    }
  }

  /** A block splits into its top `a` and its bottom `b` rows. */
  lemma {:induction false} BlockSadSplitRows(p: seq<Byte>, i: int, q: seq<Byte>, j: int, stride: nat, a: nat, b: nat, cols: nat)
    requires InBlock(|p|, i, stride, a + b, cols) && InBlock(|q|, j, stride, a + b, cols)
    ensures InBlock(|p|, i, stride, a, cols) && InBlock(|q|, j, stride, a, cols)
    ensures InBlock(|p|, i + a * stride, stride, b, cols) && InBlock(|q|, j + a * stride, stride, b, cols)
    ensures BlockSad(p, i, q, j, stride, a + b, cols)
         == BlockSad(p, i, q, j, stride, a, cols) + BlockSad(p, i + a * stride, q, j + a * stride, stride, b, cols)
    decreases a
  {
    InBlockRows(|p|, i, stride, a, b, cols);
    InBlockRows(|q|, j, stride, a, b, cols);
    if a > 0 {
      BlockSadSplitRows(p, i + stride, q, j + stride, stride, a - 1, b, cols);
      assert i + stride + (a - 1) * stride == i + a * stride;
      assert j + stride + (a - 1) * stride == j + a * stride;
    }
  }

  /** A band of h rows and w + w columns splits into its left and right halves. */
  lemma BandHalves(p: seq<Byte>, i: int, q: seq<Byte>, j: int, stride: nat, h: nat, w: nat)
    requires InBlock(|p|, i, stride, h, w + w) && InBlock(|q|, j, stride, h, w + w)
    ensures InBlock(|p|, i, stride, h, w) && InBlock(|q|, j, stride, h, w)
    ensures InBlock(|p|, i + w, stride, h, w) && InBlock(|q|, j + w, stride, h, w)
    ensures BlockSad(p, i, q, j, stride, h, w + w)
         == BlockSad(p, i, q, j, stride, h, w) + BlockSad(p, i + w, q, j + w, stride, h, w)
  {
    BlockSadSplitCols(p, i, q, j, stride, h, w, w);
  }

  /** A block of h + h rows and w + w columns is the sum of its four
      quadrants: (i0, j0) at the top left, (i1, j1) w columns right,
      (i2, j2) h rows down and (i3, j3) both; the 16x16 SAD is so the sum
      of the four 8x8 SADs. */
  lemma Quadrants(p: seq<Byte>, i0: int, q: seq<Byte>, j0: int, stride: nat, h: nat, w: nat,
                  i1: int, j1: int, i2: int, j2: int, i3: int, j3: int)
    requires InBlock(|p|, i0, stride, h + h, w + w) && InBlock(|q|, j0, stride, h + h, w + w)
    requires i1 == i0 + w && j1 == j0 + w
    requires i2 == i0 + h * stride && j2 == j0 + h * stride
    requires i3 == i2 + w && j3 == j2 + w
    ensures InBlock(|p|, i0, stride, h, w) && InBlock(|q|, j0, stride, h, w)
    ensures InBlock(|p|, i1, stride, h, w) && InBlock(|q|, j1, stride, h, w)
    ensures InBlock(|p|, i2, stride, h, w) && InBlock(|q|, j2, stride, h, w)
    ensures InBlock(|p|, i3, stride, h, w) && InBlock(|q|, j3, stride, h, w)
    ensures BlockSad(p, i0, q, j0, stride, h + h, w + w)
         == BlockSad(p, i0, q, j0, stride, h, w) + BlockSad(p, i1, q, j1, stride, h, w)
          + BlockSad(p, i2, q, j2, stride, h, w) + BlockSad(p, i3, q, j3, stride, h, w)
  {
    BlockSadSplitRows(p, i0, q, j0, stride, h, h, w + w);
    BandHalves(p, i0, q, j0, stride, h, w);
    BandHalves(p, i2, q, j2, stride, h, w);
  }

  // ---------------------------------------------------------------------
  // The MMX building blocks

  /** `paddusw`: unsigned 16-bit saturating addition. */
  function SatAdd16(a: int, b: int): int
  {
    if a + b > 0xFFFF then 0xFFFF else a + b
  }

  /** `pmaddwd` against {1, 1, 1, 1} reads each lane as a signed 16-bit word. */
  function Signed16(w: int): int
  {
    if w >= 0x8000 then w - 0x10000 else w
  }

  /** `psubusb`: unsigned 8-bit saturating subtraction. */
  function SatSub8(a: Byte, b: Byte): Byte
  {
    if a > b then a - b else 0
  }

  /** `por`: bitwise OR, defined on the binary digits. */
  function BitOr(a: nat, b: nat): nat
    decreases a + b
  {
    if a == 0 && b == 0 then 0
    else 2 * BitOr(a / 2, b / 2) + (if a % 2 == 1 || b % 2 == 1 then 1 else 0)
  }

  lemma {:induction false} BitOrZero(x: nat)
    ensures BitOr(x, 0) == x && BitOr(0, x) == x
    decreases x
  {
    if x > 0 {
      BitOrZero(x / 2);
    }
  }

  /** The byte difference the MMX loops form: (a -sat b) | (b -sat a). */
  function AbsByte(a: Byte, b: Byte): nat
  {
    BitOr(SatSub8(a, b), SatSub8(b, a))
  }

  /** One of the two saturating differences is zero, so their OR is |a - b|. */
  lemma AbsByteIsAbsDiff(a: Byte, b: Byte)
    ensures AbsByte(a, b) == AbsDiff(a, b)
  {
    BitOrZero(SatSub8(a, b));
    BitOrZero(SatSub8(b, a));
  }

  /** The four byte differences of one group of four columns, one per lane. */
  lemma RowSad4(p: seq<Byte>, i: int, q: seq<Byte>, j: int)
    requires 0 <= i && i + 4 <= |p| && 0 <= j && j + 4 <= |q|
    ensures RowSad(p, i, q, j, 4)
         == AbsByte(p[i], q[j]) + AbsByte(p[i + 1], q[j + 1]) + AbsByte(p[i + 2], q[j + 2]) + AbsByte(p[i + 3], q[j + 3])
  {
    AbsByteIsAbsDiff(p[i], q[j]);
    AbsByteIsAbsDiff(p[i + 1], q[j + 1]);
    AbsByteIsAbsDiff(p[i + 2], q[j + 2]);
    AbsByteIsAbsDiff(p[i + 3], q[j + 3]);
    assert RowSad(p, i, q, j, 1) == AbsDiff(p[i], q[j]);
    assert RowSad(p, i, q, j, 2) == RowSad(p, i, q, j, 1) + AbsDiff(p[i + 1], q[j + 1]);
    assert RowSad(p, i, q, j, 3) == RowSad(p, i, q, j, 2) + AbsDiff(p[i + 2], q[j + 2]);
  }

  /** What lane k (0..3) gains from a row of `g` groups of four bytes: the
      difference in column k of every group.  This is where the byte unpacks
      (`punpcklbw`, `punpckhbw`) and the word adds of the source route each
      column: word k of a register receives columns k and k + 4 of its eight
      bytes. */
  function LaneRow(p: seq<Byte>, i: int, q: seq<Byte>, j: int, g: nat, k: nat): nat
    requires 0 <= i && i + 4 * g <= |p| && 0 <= j && j + 4 * g <= |q| && k < 4
  {
    if g == 0 then 0
    else LaneRow(p, i, q, j, g - 1, k) + AbsByte(p[i + 4 * (g - 1) + k], q[j + 4 * (g - 1) + k])
  }

  /** What lane k accumulates over a block whose rows are `g` groups wide. */
  function LaneBlock(p: seq<Byte>, i: int, q: seq<Byte>, j: int, stride: nat, rows: nat, g: nat, k: nat): nat
    requires InBlock(|p|, i, stride, rows, 4 * g) && InBlock(|q|, j, stride, rows, 4 * g) && k < 4
    decreases rows
  {
    if rows == 0 then 0
    else LaneRow(p, i, q, j, g, k) + LaneBlock(p, i + stride, q, j + stride, stride, rows - 1, g, k)
  }

  /** Every column of a row goes to exactly one lane. */
  lemma {:induction false} LanesOfRow(p: seq<Byte>, i: int, q: seq<Byte>, j: int, g: nat)
    requires 0 <= i && i + 4 * g <= |p| && 0 <= j && j + 4 * g <= |q|
    ensures LaneRow(p, i, q, j, g, 0) + LaneRow(p, i, q, j, g, 1) + LaneRow(p, i, q, j, g, 2) + LaneRow(p, i, q, j, g, 3)
         == RowSad(p, i, q, j, 4 * g)
  {
    if g > 0 {
      var n := 4 * (g - 1);
      LanesOfRow(p, i, q, j, g - 1);
      RowSadSplit(p, i, q, j, n, 4);
      RowSad4(p, i + n, q, j + n);
      assert LaneRow(p, i, q, j, g, 0) == LaneRow(p, i, q, j, g - 1, 0) + AbsByte(p[i + n], q[j + n]);
      assert LaneRow(p, i, q, j, g, 1) == LaneRow(p, i, q, j, g - 1, 1) + AbsByte(p[i + n + 1], q[j + n + 1]);
      assert LaneRow(p, i, q, j, g, 2) == LaneRow(p, i, q, j, g - 1, 2) + AbsByte(p[i + n + 2], q[j + n + 2]);
      assert LaneRow(p, i, q, j, g, 3) == LaneRow(p, i, q, j, g - 1, 3) + AbsByte(p[i + n + 3], q[j + n + 3]);
    }
  }

  /** The four lanes together hold the whole block SAD. */
  lemma {:induction false} LanesOfBlock(p: seq<Byte>, i: int, q: seq<Byte>, j: int, stride: nat, rows: nat, g: nat)
    requires InBlock(|p|, i, stride, rows, 4 * g) && InBlock(|q|, j, stride, rows, 4 * g)
    ensures LaneBlock(p, i, q, j, stride, rows, g, 0) + LaneBlock(p, i, q, j, stride, rows, g, 1)
          + LaneBlock(p, i, q, j, stride, rows, g, 2) + LaneBlock(p, i, q, j, stride, rows, g, 3)
         == BlockSad(p, i, q, j, stride, rows, 4 * g)
    decreases rows
  {
    if rows > 0 {
      LanesOfRow(p, i, q, j, g);
      LanesOfBlock(p, i + stride, q, j + stride, stride, rows - 1, g);
    }
  }

  /** A lane receives one byte difference per group, at most 255 each. */
  lemma {:induction false} LaneRowBound(p: seq<Byte>, i: int, q: seq<Byte>, j: int, g: nat, k: nat)
    requires 0 <= i && i + 4 * g <= |p| && 0 <= j && j + 4 * g <= |q| && k < 4
    ensures LaneRow(p, i, q, j, g, k) <= 255 * g
  {
    if g > 0 {
      LaneRowBound(p, i, q, j, g - 1, k);
      AbsByteIsAbsDiff(p[i + 4 * (g - 1) + k], q[j + 4 * (g - 1) + k]);
    }
  }

  /** A row's lane contribution splits after `a` groups. */
  lemma {:induction false} LaneRowSplit(p: seq<Byte>, i: int, q: seq<Byte>, j: int, a: nat, b: nat, k: nat)
    requires 0 <= i && i + 4 * (a + b) <= |p| && 0 <= j && j + 4 * (a + b) <= |q| && k < 4
    ensures LaneRow(p, i, q, j, a + b, k) == LaneRow(p, i, q, j, a, k) + LaneRow(p, i + 4 * a, q, j + 4 * a, b, k)
  {
    if b > 0 {
      LaneRowSplit(p, i, q, j, a, b - 1, k);
    }
  }

  /** The lanes of a 16-byte row are those of its left and right eight bytes. */
  lemma LaneRowHalves(p: seq<Byte>, i: int, q: seq<Byte>, j: int, k: nat)
    requires 0 <= i && i + 16 <= |p| && 0 <= j && j + 16 <= |q| && k < 4
    ensures LaneRow(p, i, q, j, 4, k) == LaneRow(p, i, q, j, 2, k) + LaneRow(p, i + 8, q, j + 8, 2, k)
  {
    LaneRowSplit(p, i, q, j, 2, 2, k);
  }

  /** Only the samples of the row matter: a copy of the row (the registers it
      was loaded into) feeds the lanes exactly as the plane does. */
  lemma {:induction false} LaneRowOfSame(p: seq<Byte>, i: int, p': seq<Byte>, i': int, q: seq<Byte>, j: int, g: nat, k: nat)
    requires 0 <= i && i + 4 * g <= |p| && 0 <= i' && i' + 4 * g <= |p'| && 0 <= j && j + 4 * g <= |q| && k < 4
    requires p[i..i + 4 * g] == p'[i'..i' + 4 * g]
    ensures LaneRow(p, i, q, j, g, k) == LaneRow(p', i', q, j, g, k)
  {
    if g > 0 {
      var n := 4 * (g - 1);
      assert p[i + n + k] == p[i..i + 4 * g][n + k] == p'[i'..i' + 4 * g][n + k] == p'[i' + n + k];
      assert p[i..i + n] == p[i..i + 4 * g][..n];
      assert p'[i'..i' + n] == p'[i'..i' + 4 * g][..n];
      LaneRowOfSame(p, i, p', i', q, j, g - 1, k);
    }
  }

  /** `paddusw` of one register's words into the four lanes; the register
      holds a row of `g` groups (g == 2: eight bytes, unpacked and added
      pairwise, which cannot saturate at 2 * 255). */
  function AddRow(lanes: seq<int>, p: seq<Byte>, i: int, q: seq<Byte>, j: int, g: nat): (r: seq<int>)
    requires |lanes| == 4 && 0 <= i && i + 4 * g <= |p| && 0 <= j && j + 4 * g <= |q|
    ensures |r| == 4
  {
    seq(4, k requires 0 <= k < 4 => SatAdd16(lanes[k], LaneRow(p, i, q, j, g, k)))
  }

  /** Lane k of `AddRow`. */
  lemma AddRowAt(lanes: seq<int>, p: seq<Byte>, i: int, q: seq<Byte>, j: int, g: nat, k: nat)
    requires |lanes| == 4 && 0 <= i && i + 4 * g <= |p| && 0 <= j && j + 4 * g <= |q| && k < 4
    ensures AddRow(lanes, p, i, q, j, g)[k] == SatAdd16(lanes[k], LaneRow(p, i, q, j, g, k))
  {
  }

  /** One 16-byte row in the 16x16 loop: the words of its left eight bytes are
      added to the lanes first, then those of its right eight bytes, each add
      saturating. */
  function AddRow16(lanes: seq<int>, p: seq<Byte>, i: int, q: seq<Byte>, j: int): (r: seq<int>)
    requires |lanes| == 4 && 0 <= i && i + 16 <= |p| && 0 <= j && j + 16 <= |q|
    ensures |r| == 4
  {
    AddRow(AddRow(lanes, p, i, q, j, 2), p, i + 8, q, j + 8, 2)
  }

  // ---------------------------------------------------------------------
  // The two metric entry points

  /** Lane k over one row of the lane accumulation: while the lane holds at
      most `bound` and one register more still fits in 16 bits, the
      saturating add is exact, and the rows still to go shrink by one.
      `total` is what the lane must hold once the whole block is done. */
  lemma LaneAdvance(lane: int, bound: int, p: seq<Byte>, q: seq<Byte>, stride: nat, g: nat,
                    esi: int, edi: int, rem: nat, k: nat, total: int)
    requires InBlock(|p|, esi, stride, rem, 4 * g) && InBlock(|q|, edi, stride, rem, 4 * g) && 0 < rem && k < 4
    requires 0 <= lane <= bound && bound + 255 * g <= 0xFFFF
    requires lane + LaneBlock(p, esi, q, edi, stride, rem, g, k) == total
    ensures 0 <= SatAdd16(lane, LaneRow(p, esi, q, edi, g, k)) <= bound + 255 * g
    ensures SatAdd16(lane, LaneRow(p, esi, q, edi, g, k)) + LaneBlock(p, esi + stride, q, edi + stride, stride, rem - 1, g, k)
         == total
  {
    LaneRowBound(p, esi, q, edi, g, k);
  }

  /** Lane k over one iteration of the 8x8 loop: two rows, each one register
      of eight differences, taking (`lanes`, `esi`, `edi`) through (`lanes1`,
      `esi1`, `edi1`) to (`lanes2`, `esi2`, `edi2`). */
  lemma TwoRows8Lane(lanes: seq<int>, lanes1: seq<int>, lanes2: seq<int>, bound: int, p: seq<Byte>, q: seq<Byte>, stride: nat,
                     esi: int, esi1: int, esi2: int, edi: int, edi1: int, edi2: int, rem: nat, k: nat, total: int)
    requires InBlock(|p|, esi, stride, rem, 8) && InBlock(|q|, edi, stride, rem, 8) && 2 <= rem
    requires esi1 == esi + stride && esi2 == esi1 + stride && edi1 == edi + stride && edi2 == edi1 + stride
    requires 0 <= esi && esi1 + 8 <= |p| && 0 <= edi && edi1 + 8 <= |q|
    requires |lanes| == 4 && 0 <= k < 4
    requires lanes1 == AddRow(lanes, p, esi, q, edi, 2) && lanes2 == AddRow(lanes1, p, esi1, q, edi1, 2)
    requires 0 <= lanes[k] <= bound && bound + 1020 <= 0xFFFF
    requires lanes[k] + LaneBlock(p, esi, q, edi, stride, rem, 2, k) == total
    ensures InBlock(|p|, esi2, stride, rem - 2, 8) && InBlock(|q|, edi2, stride, rem - 2, 8)
    ensures 0 <= lanes2[k] <= bound + 1020
    ensures lanes2[k] + LaneBlock(p, esi2, q, edi2, stride, rem - 2, 2, k) == total
  {
    AddRowAt(lanes, p, esi, q, edi, 2, k);
    LaneAdvance(lanes[k], bound, p, q, stride, 2, esi, edi, rem, k, total);
    AddRowAt(lanes1, p, esi1, q, edi1, 2, k);
    LaneAdvance(lanes1[k], bound + 510, p, q, stride, 2, esi1, edi1, rem - 1, k, total);
  }

  /** The loop state of the lane accumulation: `rem` rows of `g` groups are
      still to go from (esi, edi), every lane holds at most `bound`, and each
      lane plus what the remaining rows add to it is its final value `totals[k]`. */
  predicate LanesHold(lanes: seq<int>, bound: int, p: seq<Byte>, q: seq<Byte>, stride: nat,
                      esi: int, edi: int, rem: nat, g: nat, totals: seq<int>)
  {
    InBlock(|p|, esi, stride, rem, 4 * g) && InBlock(|q|, edi, stride, rem, 4 * g) &&
    |lanes| == 4 && |totals| == 4 &&
    (forall k :: 0 <= k < 4 ==> 0 <= lanes[k] <= bound) &&
    (forall k :: 0 <= k < 4 ==> lanes[k] + LaneBlock(p, esi, q, edi, stride, rem, g, k) == totals[k])
  }

  /** One iteration of the 8x8 loop, all four lanes: the state after the two
      row adds (`lanes2`, `esi2`, `edi2`) holds for the remaining rows. */
  lemma TwoRows8(lanes: seq<int>, lanes1: seq<int>, lanes2: seq<int>, bound: int, bound': int,
                 p: seq<Byte>, q: seq<Byte>, stride: nat,
                 esi: int, esi1: int, esi2: int, edi: int, edi1: int, edi2: int, rem: nat, rem': nat, totals: seq<int>)
    requires LanesHold(lanes, bound, p, q, stride, esi, edi, rem, 2, totals)
    requires 2 <= rem && rem' == rem - 2 && bound' == bound + 1020 && bound' <= 0xFFFF
    requires esi1 == esi + stride && esi2 == esi1 + stride && edi1 == edi + stride && edi2 == edi1 + stride
    requires 0 <= esi && esi1 + 8 <= |p| && 0 <= edi && edi1 + 8 <= |q|
    requires lanes1 == AddRow(lanes, p, esi, q, edi, 2) && lanes2 == AddRow(lanes1, p, esi1, q, edi1, 2)
    ensures LanesHold(lanes2, bound', p, q, stride, esi2, edi2, rem', 2, totals)
  {
    TwoRows8Lane(lanes, lanes1, lanes2, bound, p, q, stride, esi, esi1, esi2, edi, edi1, edi2, rem, 0, totals[0]);
    forall k | 0 <= k < 4
      ensures 0 <= lanes2[k] <= bound'
      ensures lanes2[k] + LaneBlock(p, esi2, q, edi2, stride, rem', 2, k) == totals[k]
    {
      TwoRows8Lane(lanes, lanes1, lanes2, bound, p, q, stride, esi, esi1, esi2, edi, edi1, edi2, rem, k, totals[k]);
    }
  }

  /** The two rows of one iteration lie in the block. */
  lemma TwoRowsInRange(len: int, base: int, stride: nat, rem: nat, cols: nat)
    requires InBlock(len, base, stride, rem, cols) && 2 <= rem
    ensures 0 <= base && base + stride + cols <= len && base + cols <= len
  {
  }

  /** `GetErrorSAD_8x8`: four iterations of two rows each, eight bytes per
      row, no read-ahead. */
  method GetErrorSad8x8(block1: seq<Byte>, b1: int, block2: seq<Byte>, b2: int, stride: nat) returns (sum: int)
    requires InBlock(|block1|, b1, stride, 8, 8) && InBlock(|block2|, b2, stride, 8, 8)
    ensures sum == BlockSad(block1, b1, block2, b2, stride, 8, 8)
  {
    ghost var totals := seq(4, k requires 0 <= k < 4 => LaneBlock(block1, b1, block2, b2, stride, 8, 2, k));
    var lanes := [0, 0, 0, 0];
    var esi, edi := b1, b2;
    var ecx := 4;
    while ecx != 0
      invariant 0 <= ecx <= 4
      invariant LanesHold(lanes, 1020 * (4 - ecx), block1, block2, stride, esi, edi, 2 * ecx, 2, totals)
    {
      ghost var lanes0, esi0, edi0, ecx0 := lanes, esi, edi, ecx;
      TwoRowsInRange(|block1|, esi, stride, 2 * ecx, 8);
      TwoRowsInRange(|block2|, edi, stride, 2 * ecx, 8);
      lanes := AddRow(lanes, block1, esi, block2, edi, 2);
      esi, edi := esi + stride, edi + stride;
      ghost var lanes1, esi1, edi1 := lanes, esi, edi;
      lanes := AddRow(lanes, block1, esi, block2, edi, 2);
      esi, edi := esi + stride, edi + stride;
      ecx := ecx - 1;
      TwoRows8(lanes0, lanes1, lanes, 1020 * (4 - ecx0), 1020 * (4 - ecx), block1, block2, stride,
               esi0, esi1, esi, edi0, edi1, edi, 2 * ecx0, 2 * ecx, totals);
    }
    sum := (Signed16(lanes[0]) + Signed16(lanes[1])) + (Signed16(lanes[2]) + Signed16(lanes[3]));
    LanesOfBlock(block1, b1, block2, b2, stride, 8, 2);
  }

  /** Lane k over one 16-byte row of the 16x16 loop, read from the copy of
      the row that was prefetched into registers: the two half-row adds are
      one exact add of the row. */
  lemma Row16Lane(lanes: seq<int>, lanes1: seq<int>, bound: int, row: seq<Byte>, p: seq<Byte>, q: seq<Byte>, stride: nat,
                  esi: int, esi1: int, edi: int, edi1: int, rem: nat, k: nat, total: int)
    requires InBlock(|p|, esi, stride, rem, 16) && InBlock(|q|, edi, stride, rem, 16) && 0 < rem
    requires esi1 == esi + stride && edi1 == edi + stride
    requires row == p[esi..esi + 16] && |lanes| == 4 && k < 4
    requires lanes1 == AddRow16(lanes, row, 0, q, edi)
    requires 0 <= lanes[k] <= bound && bound + 1020 <= 0xFFFF
    requires lanes[k] + LaneBlock(p, esi, q, edi, stride, rem, 4, k) == total
    ensures InBlock(|p|, esi1, stride, rem - 1, 16) && InBlock(|q|, edi1, stride, rem - 1, 16)
    ensures 0 <= lanes1[k] <= bound + 1020
    ensures lanes1[k] + LaneBlock(p, esi1, q, edi1, stride, rem - 1, 4, k) == total
  {
    var half := AddRow(lanes, row, 0, q, edi, 2);
    AddRowAt(lanes, row, 0, q, edi, 2, k);
    AddRowAt(half, row, 8, q, edi + 8, 2, k);
    assert row[0..16] == row;
    LaneRowOfSame(row, 0, p, esi, q, edi, 4, k);
    LaneRowHalves(row, 0, q, edi, k);
    LaneRowBound(row, 0, q, edi, 4, k);
  }

  /** Lane k over one iteration of the 16x16 loop: two rows, each read from
      the row prefetched before it. */
  lemma TwoRows16Lane(lanes: seq<int>, lanes1: seq<int>, lanes2: seq<int>, bound: int,
                      row: seq<Byte>, row1: seq<Byte>, p: seq<Byte>, q: seq<Byte>, stride: nat,
                      esi: int, esi1: int, esi2: int, edi: int, edi1: int, edi2: int, rem: nat, k: nat, total: int)
    requires InBlock(|p|, esi, stride, rem, 16) && InBlock(|q|, edi, stride, rem, 16) && 2 <= rem
    requires esi1 == esi + stride && esi2 == esi1 + stride && edi1 == edi + stride && edi2 == edi1 + stride
    requires 0 <= esi1 && esi1 + 16 <= |p| && 0 <= edi1 && edi1 + 16 <= |q|
    requires row == p[esi..esi + 16] && row1 == p[esi1..esi1 + 16] && |lanes| == 4 && 0 <= k < 4
    requires lanes1 == AddRow16(lanes, row, 0, q, edi) && lanes2 == AddRow16(lanes1, row1, 0, q, edi1)
    requires 0 <= lanes[k] <= bound && bound + 2040 <= 0xFFFF
    requires lanes[k] + LaneBlock(p, esi, q, edi, stride, rem, 4, k) == total
    ensures InBlock(|p|, esi2, stride, rem - 2, 16) && InBlock(|q|, edi2, stride, rem - 2, 16)
    ensures 0 <= lanes2[k] <= bound + 2040
    ensures lanes2[k] + LaneBlock(p, esi2, q, edi2, stride, rem - 2, 4, k) == total
  {
    Row16Lane(lanes, lanes1, bound, row, p, q, stride, esi, esi1, edi, edi1, rem, k, total);
    Row16Lane(lanes1, lanes2, bound + 1020, row1, p, q, stride, esi1, esi2, edi1, edi2, rem - 1, k, total);
  }

  /** One iteration of the 16x16 loop, all four lanes: the state after the
      two row adds and the prefetch (`lanes2`, `esi2`, `edi2`, `row2`) holds
      for the remaining rows. */
  lemma TwoRows16(lanes: seq<int>, lanes1: seq<int>, lanes2: seq<int>, bound: int, bound': int,
                  row: seq<Byte>, row1: seq<Byte>, row2: seq<Byte>, p: seq<Byte>, q: seq<Byte>, stride: nat,
                  esi: int, esi1: int, esi2: int, edi: int, edi1: int, edi2: int, rem: nat, rem': nat, totals: seq<int>)
    requires LanesHold(lanes, bound, p, q, stride, esi, edi, rem, 4, totals)
    requires InBlock(|p|, esi, stride, rem + 1, 16) && row == p[esi..esi + 16]
    requires 2 <= rem && rem' == rem - 2 && bound' == bound + 2040 && bound' <= 0xFFFF
    requires esi1 == esi + stride && esi2 == esi1 + stride && edi1 == edi + stride && edi2 == edi1 + stride
    requires 0 <= esi && esi2 + 16 <= |p| && 0 <= edi && edi1 + 16 <= |q|
    requires row1 == p[esi1..esi1 + 16] && row2 == p[esi2..esi2 + 16]
    requires lanes1 == AddRow16(lanes, row, 0, q, edi) && lanes2 == AddRow16(lanes1, row1, 0, q, edi1)
    ensures InBlock(|p|, esi2, stride, rem' + 1, 16)
    ensures LanesHold(lanes2, bound', p, q, stride, esi2, edi2, rem', 4, totals)
  {
    InBlockRows(|p|, esi2, stride, rem', 1, 16);
    TwoRows16Lane(lanes, lanes1, lanes2, bound, row, row1, p, q, stride, esi, esi1, esi2, edi, edi1, edi2, rem, 0, totals[0]);
    assert InBlock(|p|, esi2, stride, rem', 16) && InBlock(|q|, edi2, stride, rem', 16);
    forall k | 0 <= k < 4
      ensures 0 <= lanes2[k] <= bound'
      ensures lanes2[k] + LaneBlock(p, esi2, q, edi2, stride, rem', 4, k) == totals[k]
    {
      TwoRows16Lane(lanes, lanes1, lanes2, bound, row, row1, p, q, stride, esi, esi1, esi2, edi, edi1, edi2, rem, k, totals[k]);
    }
  }

  /** One pass of the unrolled 16x16 loop body: two rows are added to the
      lanes, each from the row of block1 loaded ahead, and the row after them
      is loaded in turn. `bound`/`rem` describe the state before the pass,
      `bound'`/`rem'` the state after it. */
  method SadTwoRows16(lanes: seq<int>, row1: seq<Byte>, block1: seq<Byte>, block2: seq<Byte>, stride: nat,
                      esi: int, edi: int, ghost bound: int, ghost bound': int, ghost rem: nat, ghost rem': nat,
                      ghost totals: seq<int>)
    returns (lanes': seq<int>, row1': seq<Byte>, esi': int, edi': int)
    requires 2 <= rem && rem' == rem - 2 && bound' == bound + 2040 && bound' <= 0xFFFF
    requires InBlock(|block1|, esi, stride, rem + 1, 16) && row1 == block1[esi..esi + 16]
    requires LanesHold(lanes, bound, block1, block2, stride, esi, edi, rem, 4, totals)
    ensures esi' == esi + stride + stride && edi' == edi + stride + stride
    ensures InBlock(|block1|, esi', stride, rem' + 1, 16) && row1' == block1[esi'..esi' + 16]
    ensures LanesHold(lanes', bound', block1, block2, stride, esi', edi', rem', 4, totals)
  {
    TwoRowsInRange(|block1|, esi + stride, stride, rem, 16);
    TwoRowsInRange(|block2|, edi, stride, rem, 16);
    lanes' := AddRow16(lanes, row1, 0, block2, edi);
    esi', edi' := esi + stride, edi + stride;
    row1' := block1[esi'..esi' + 16];
    ghost var lanes1, row11, esi1, edi1 := lanes', row1', esi', edi';
    lanes' := AddRow16(lanes', row1', 0, block2, edi');
    esi', edi' := esi' + stride, edi' + stride;
    row1' := block1[esi'..esi' + 16];
    TwoRows16(lanes, lanes1, lanes', bound, bound', row1, row11, row1', block1, block2, stride,
              esi, esi1, esi', edi, edi1, edi', rem, rem', totals);
  }

  /** `GetErrorSAD_16x16`: two rows per pass of the counted loop; the next
      row of block1 is loaded ahead, so after the last row the loop still
      reads row 16 of block1: block1 needs 17 readable rows, block2 16. */
  method GetErrorSad16x16(block1: seq<Byte>, b1: int, block2: seq<Byte>, b2: int, stride: nat) returns (sum: int)
    requires InBlock(|block1|, b1, stride, 17, 16) && InBlock(|block2|, b2, stride, 16, 16)
    ensures InBlock(|block1|, b1, stride, 16, 16)
    ensures sum == BlockSad(block1, b1, block2, b2, stride, 16, 16)
  {
    InBlockRows(|block1|, b1, stride, 16, 1, 16);
    ghost var totals := seq(4, k requires 0 <= k < 4 => LaneBlock(block1, b1, block2, b2, stride, 16, 4, k));
    var lanes := [0, 0, 0, 0];
    var esi, edi := b1, b2;
    var row1 := block1[esi..esi + 16];
    var ecx := 16;
    while ecx != 0
      invariant 0 <= ecx <= 16 && ecx % 2 == 0
      invariant InBlock(|block1|, esi, stride, ecx + 1, 16) && row1 == block1[esi..esi + 16]
      invariant LanesHold(lanes, 1020 * (16 - ecx), block1, block2, stride, esi, edi, ecx, 4, totals)
    {
      ghost var ecx0 := ecx;
      ecx := ecx - 2;
      lanes, row1, esi, edi := SadTwoRows16(lanes, row1, block1, block2, stride, esi, edi,
                                            1020 * (16 - ecx0), 1020 * (16 - ecx), ecx0, ecx, totals);
    }
    sum := (Signed16(lanes[0]) + Signed16(lanes[1])) + (Signed16(lanes[2]) + Signed16(lanes[3]));
    LanesOfBlock(block1, b1, block2, b2, stride, 16, 4);
  }

  /** The metric's range: 0 <= SAD <= 255 * 256 for 16x16 and 255 * 64 for 8x8. */
  lemma SadRange(p: seq<Byte>, i: int, q: seq<Byte>, j: int, stride: nat)
    requires InBlock(|p|, i, stride, 16, 16) && InBlock(|q|, j, stride, 16, 16)
    requires InBlock(|p|, i, stride, 8, 8) && InBlock(|q|, j, stride, 8, 8)
    ensures BlockSad(p, i, q, j, stride, 16, 16) <= 255 * 256
    ensures BlockSad(p, i, q, j, stride, 8, 8) <= 255 * 64
  {
    BlockSadBound(p, i, q, j, stride, 16, 16);
    BlockSadBound(p, i, q, j, stride, 8, 8);
  }
}
