// Half-pixel interpolation of one plane (half_pixel.cpp).
//
// A plane of `w * h` samples is resampled halfway between neighbouring
// rows (or columns) with the six-tap-like filter of the source: the two
// edge positions use the mean of their two neighbours, every inner
// position the kernel (-1, 5, 5, -1) / 8; the result is clamped to a byte
// (luma planes) or cast to a 16-bit integer (chroma planes).  The shift
// keeps one original row (or column) so that the plane keeps its size.
module HalfPixel {
  import opened Grid

  /** The two sample types the source provides an overload for. */
  datatype SampleKind = U8 | I16

  predicate Fits(kind: SampleKind, v: int)
  {
    match kind
    case U8 => 0 <= v < 256
    case I16 => -32768 <= v < 32768
  }

  /** The store into the sample type: the if-chain clamp to 0 .. 255 of the
      byte overload, the two's complement cast of the 16-bit overload. */
  function Narrow(kind: SampleKind, t: int): (v: int)
    ensures Fits(kind, v)
    ensures Fits(kind, t) ==> v == t
    ensures kind == U8 ==> v == (if t < 0 then 0 else if t > 255 then 255 else t)
  {
    match kind
    case U8 => if t < 255 then (if t >= 0 then t else 0) else 255
    case I16 => (t + 32768) % 65536 - 32768
  }

  /** `(a + b) >> 1`: an arithmetic shift floors, as Euclidean division by a
      positive divisor does. */
  function Half(a: int, b: int): int
  {
    (a + b) / 2
  }

  /** `(5 * (a + b) - (c + d)) >> 3`: the half-way sample between `a` and
      `b`, with `c` before `a` and `d` after `b`. */
  function Tap(c: int, a: int, b: int, d: int): int
  {
    (5 * (a + b) - (c + d)) / 8
  }

  /** Both filters keep a flat signal flat. */
  lemma FiltersKeepConstant(v: int)
    ensures Half(v, v) == v && Tap(v, v, v, v) == v
  {
    assert 5 * (v + v) - (v + v) == 8 * v;
  }

  /** Inputs within two thirds of the 16-bit range never wrap in the cast. */
  lemma FiltersFitShort(c: int, a: int, b: int, d: int)
    requires -21845 <= c <= 21845 && -21845 <= a <= 21845
    requires -21845 <= b <= 21845 && -21845 <= d <= 21845
    ensures Fits(I16, Half(a, b)) && Fits(I16, Tap(c, a, b, d))
  {
  }

  predicate PlaneFits(kind: SampleKind, f: seq<int>)
  {
    forall n :: 0 <= n < |f| ==> Fits(kind, f[n])
  }

  // ---------------------------------------------------------------------
  // Vertical shift

  /** The interpolated sample halfway between flat position `n` and the one
      a row (`w` samples) below it.  The first and the last pair of rows
      average their two samples; every other pair also weighs the rows
      above and below. */
  function VertAt(kind: SampleKind, f: seq<int>, w: int, n: int): int
    requires 0 <= w && 0 <= n < |f| - w
  {
    Narrow(kind,
      if n < w || n >= |f| - 2 * w then Half(f[n], f[n + w])
      else Tap(f[n - w], f[n], f[n + w], f[n + 2 * w]))
  }

  /** The plane after `HalfpixelShift`: the `h - 1` interpolated rows placed
      below the kept first row when shifting up, above the kept last row
      otherwise. */
  function ShiftVert(kind: SampleKind, f: seq<int>, w: int, up: bool): (g: seq<int>)
    requires 0 <= w <= |f|
    ensures |g| == |f|
  {
    seq(|f|, n requires 0 <= n < |f| =>
      if up then (if n < w then f[n] else VertAt(kind, f, w, n - w))
      else (if n < |f| - w then VertAt(kind, f, w, n) else f[n]))
  }

  /** The edge row loops of `HalfpixelShift`: the scratch row starting at
      `off` takes the mean of the rows starting at `off` and
      `off + w`; these are the first and the last row pair. */
  method HalfRow(field: array<int>, newField: array<int>, width: int, kind: SampleKind, off: int)
    requires field != newField && newField.Length == field.Length && 0 <= width
    requires 0 <= off && off + 2 * width <= field.Length
    requires off == 0 || off == field.Length - 2 * width
    modifies newField
    ensures forall n :: 0 <= n < newField.Length ==>
      newField[n] == (if off <= n < off + width then VertAt(kind, field[..], width, n) else old(newField[n]))
  {
    ghost var f := field[..];
    var j := 0;
    while j < width
      invariant 0 <= j <= width
      invariant forall n :: 0 <= n < newField.Length ==>
        newField[n] == (if off <= n < off + j then VertAt(kind, f, width, n) else old(newField[n]))
    {
      newField[off + j] := Narrow(kind, Half(field[off + j], field[off + width + j]));
      j := j + 1;
    }
  }

  /** The body of the inner row loop of `HalfpixelShift`: an inner scratch row, starting at `off`,
      weighs the four rows around it. */
  method TapRow(field: array<int>, newField: array<int>, width: int, kind: SampleKind, off: int)
    requires field != newField && newField.Length == field.Length && 0 <= width
    requires width <= off && off + 3 * width <= field.Length
    modifies newField
    ensures forall n :: 0 <= n < newField.Length ==>
      newField[n] == (if off <= n < off + width then VertAt(kind, field[..], width, n) else old(newField[n]))
  {
    ghost var f := field[..];
    var j := 0;
    while j < width
      invariant 0 <= j <= width
      invariant forall n :: 0 <= n < newField.Length ==>
        newField[n] == (if off <= n < off + j then VertAt(kind, f, width, n) else old(newField[n]))
    {
      newField[off + j] := Narrow(kind, Tap(field[off - width + j], field[off + j],
                                            field[off + width + j], field[off + 2 * width + j]));
      j := j + 1;
    }
  }

  /** The three row loops of `HalfpixelShift`: scratch row
      `i` holds the mean of rows `i` and `i + 1`. */
  method InterpolateRows(field: array<int>, newField: array<int>, width: int, height: int, kind: SampleKind)
    requires field != newField && 0 <= width && 3 <= height
    requires field.Length == width * height && newField.Length == field.Length
    modifies newField
    ensures forall k :: 0 <= k < field.Length - width ==> newField[k] == VertAt(kind, field[..], width, k)
  {
    ghost var f := field[..];
    MulMono(2, height, width);
    HalfRow(field, newField, width, kind, 0);
    assert field[..] == f;
    var oldOff := 2 * width;
    var newOff := width;
    var i := 2;
    while i < height - 1
      invariant 2 <= i <= height - 1
      invariant oldOff == i * width && newOff == oldOff - width && width <= newOff
      invariant forall n :: 0 <= n < newOff ==> newField[n] == VertAt(kind, f, width, n)
    {
      MulMono(i + 2, height, width);
      TapRow(field, newField, width, kind, newOff);
      assert field[..] == f;
      oldOff := oldOff + width;
      newOff := newOff + width;
      i := i + 1;
    }
    HalfRow(field, newField, width, kind, newOff);
  }

  /** `HalfpixelShift(field, width, height, shift_up)`: interpolates the
      `height - 1` row pairs into a scratch plane, then copies them back
      from row 1 (shift up) or row 0. */
  method HalfpixelShift(field: array<int>, width: int, height: int, shiftUp: bool, kind: SampleKind)
    requires 0 <= width && 3 <= height && field.Length == width * height
    modifies field
    ensures field[..] == ShiftVert(kind, old(field[..]), width, shiftUp)
  {
    var newField := new int[width * height];
    ghost var f := field[..];
    InterpolateRows(field, newField, width, height, kind);
    assert field[..] == f;
    var at := if shiftUp then width else 0;
    MulMono(1, height, width);
    AllButOneRow(width, height);
    MemCopy(field, at, newField, 0, width * (height - 1));
    VertCopied(kind, f, width, shiftUp, at, width * (height - 1), newField[..], field[..]);
  }

  /** Copying the interpolated rows `g` back from row 1 (up) or row 0 gives
      the shifted plane. */
  lemma VertCopied(kind: SampleKind, f: seq<int>, w: int, up: bool, at: int, count: int,
                    g: seq<int>, r: seq<int>)
    requires 0 <= w <= |f| && |g| == |f| && |r| == |f|
    requires at == (if up then w else 0) && count == |f| - w
    requires forall k :: 0 <= k < |f| - w ==> g[k] == VertAt(kind, f, w, k)
    requires r[at..at + count] == g[0..count]
    requires r[..at] == f[..at] && r[at + count..] == f[at + count..]
    ensures r == ShiftVert(kind, f, w, up)
  {
    forall n | 0 <= n < |r|
      ensures r[n] == ShiftVert(kind, f, w, up)[n]
    {
      if n < at {
        assert r[n] == r[..at][n];
      } else if n < at + count {
        assert r[n] == r[at..at + count][n - at];
      } else {
        assert r[n] == r[at + count..][n - at - count];
      }
    }
  }

  // ---------------------------------------------------------------------
  // Horizontal shift

  /** The two interpolation rules of the column loops: the mean of a
      column pair, or the four-tap weighting of an inner pair. */
  datatype Rule = Pair | Inner

  /** Sample `n` interpolated with its right neighbour by `rule`. */
  function RuleAt(kind: SampleKind, rule: Rule, f: seq<int>, n: int): int
    requires 0 <= n && n + 1 < |f| && (rule == Inner ==> 1 <= n && n + 2 < |f|)
  {
    match rule
    case Pair => Narrow(kind, Half(f[n], f[n + 1]))
    case Inner => Narrow(kind, Tap(f[n - 1], f[n], f[n + 1], f[n + 2]))
  }

  /** Sample `n`, in column `col` of its row, shifted left by half a pixel:
      halfway between `n` and its right neighbour, except in the last
      column, which is kept.  The first and the last column pair average
      their two samples; every other pair also weighs the columns left and
      right of it. */
  function HorzCell(kind: SampleKind, f: seq<int>, w: int, n: int, col: int): int
    requires 3 <= w && 0 <= col < w && 0 <= n - col && n - col + w <= |f|
  {
    if col == w - 1 then f[n]
    else RuleAt(kind, if col == 0 || col == w - 2 then Pair else Inner, f, n)
  }

  /** Sample `n` of the plane shifted left by half a pixel. */
  function HorzAt(kind: SampleKind, f: seq<int>, w: int, h: int, n: int): int
    requires 3 <= w && |f| == w * h && 0 <= n < |f|
  {
    RowStart(w, h, n);
    HorzCell(kind, f, w, n, ColOf(w, n))
  }

  /** Column `c` of row `j` of the left-shifted plane. */
  lemma HorzAtCell(kind: SampleKind, f: seq<int>, w: int, h: int, j: int, c: int)
    requires 3 <= w && |f| == w * h && 0 <= j < h && 0 <= c < w
    ensures 0 <= RowOffset(w, j) && RowOffset(w, j) + w <= |f|
    ensures HorzAt(kind, f, w, h, RowOffset(w, j) + c) == HorzCell(kind, f, w, RowOffset(w, j) + c, c)
  {
    RowInside(w, h, j);
    ColOfOffset(w, j, c);
  }

  lemma RowInside(w: int, h: int, j: int)
    requires 0 < w && 0 <= j < h
    ensures 0 <= RowOffset(w, j) && RowOffset(w, j) + w <= w * h
  {
    RowOffsetIsProduct(w, j);
    MulMono(j + 1, h, w);
  }

  /** The intended plane after `HalfpixelShiftHorz`: the `w - 1`
      interpolated columns placed right of the kept first column when
      shifting right, left of the kept last column otherwise. */
  function ShiftHorz(kind: SampleKind, f: seq<int>, w: int, h: int, right: bool): (g: seq<int>)
    requires 3 <= w && |f| == w * h
    ensures |g| == |f|
  {
    seq(|f|, n requires 0 <= n < |f| =>
      if !right then HorzAt(kind, f, w, h, n)
      else if ColOf(w, n) == 0 then f[n]
      else HorzAt(kind, f, w, h, n - 1))
  }

  /** The plane `HalfpixelShiftHorz` produces as written.  When shifting
      right, the kept first column overwrites interpolated column 0 instead
      of preceding it, and the last column is copied from scratch memory
      that is never written (`junk`). */
  function ShiftHorzAsWritten(kind: SampleKind, f: seq<int>, w: int, h: int, right: bool, junk: seq<int>): (g: seq<int>)
    requires 3 <= w && |f| == w * h && |junk| == |f|
    ensures |g| == |f|
  {
    seq(|f|, n requires 0 <= n < |f| =>
      if !right then HorzAt(kind, f, w, h, n)
      else if ColOf(w, n) == 0 then f[n]
      else if ColOf(w, n) == w - 1 then junk[n]
      else HorzAt(kind, f, w, h, n))
  }

  /** The plane the interpolating column loops aim at: sample `n` holds the
      left-shifted sample `n - base`, so the interpolated columns start at
      column `base`. */
  function Interpolated(kind: SampleKind, f: seq<int>, w: int, h: int, base: int): (g: seq<int>)
    requires 3 <= w && |f| == w * h && 0 <= base <= 1
    ensures |g| == |f|
  {
    seq(|f|, n requires 0 <= n < |f| => if n < base then f[n] else HorzAt(kind, f, w, h, n - base))
  }

  /** `g` with the samples of columns `lo` .. `hi - 1` taken from `want`. */
  ghost function Patch(g: seq<int>, want: seq<int>, w: int, lo: int, hi: int): (p: seq<int>)
    requires 0 < w && |want| == |g|
    ensures |p| == |g|
  {
    seq(|g|, n requires 0 <= n < |g| => if lo <= ColOf(w, n) < hi then want[n] else g[n])
  }

  lemma PatchExtend(g: seq<int>, want: seq<int>, w: int, lo: int, hi: int)
    requires 0 < w && |want| == |g| && lo <= hi
    ensures Patch(Patch(g, want, w, lo, hi), want, w, hi, hi + 1) == Patch(g, want, w, lo, hi + 1)
  {
  }

  /** `g` with column `col` of its first `rows` rows taken from `want`,
      one row after the other. */
  ghost function ColumnWrite(g: seq<int>, want: seq<int>, w: int, col: int, rows: int): (p: seq<int>)
    requires 0 <= col < w && 0 <= rows && |want| == |g| && RowOffset(w, rows) <= |g|
    ensures |p| == |g|
    decreases rows
  {
    if rows == 0 then g
    else
      RowOffsetNonneg(w, rows - 1);
      ColumnWrite(g, want, w, col, rows - 1)[RowOffset(w, rows - 1) + col := want[RowOffset(w, rows - 1) + col]]
  }

  lemma {:induction false} ColumnWriteAt(g: seq<int>, want: seq<int>, w: int, col: int, rows: int)
    requires 0 <= col < w && 0 <= rows && |want| == |g| && RowOffset(w, rows) <= |g|
    ensures forall n :: 0 <= n < |g| ==>
      ColumnWrite(g, want, w, col, rows)[n] == (if ColOf(w, n) == col && RowOf(w, n) < rows then want[n] else g[n])
    decreases rows
  {
    if rows > 0 {
      RowOffsetNonneg(w, rows - 1);
      ColumnWriteAt(g, want, w, col, rows - 1);
      OffsetDecodes(w, rows - 1, col);
    }
  }

  /** Writing column `col` of every row patches exactly that column. */
  lemma ColumnWriteIsPatch(g: seq<int>, want: seq<int>, w: int, h: int, col: int)
    requires 0 <= col < w && 0 <= h && |want| == |g| && |g| == RowOffset(w, h)
    ensures ColumnWrite(g, want, w, col, h) == Patch(g, want, w, col, col + 1)
  {
    RowOffsetIsProduct(w, h);
    ColumnWriteAt(g, want, w, col, h);
    RowsInPlane(w, h);
  }

  /** `g` with column `col + base` of its first `rows` rows set to column
      `col` of `f` interpolated by `rule`, one row after the other. */
  ghost function FilterColumn(kind: SampleKind, rule: Rule, f: seq<int>, g: seq<int>, w: int, col: int, base: int,
                              rows: int): (p: seq<int>)
    requires 0 <= base && 0 <= col && col + base < w && col + 1 < w && (rule == Inner ==> 1 <= col && col + 2 < w)
    requires 0 <= rows && |f| == |g| && RowOffset(w, rows) <= |g|
    ensures |p| == |g|
    decreases rows
  {
    if rows == 0 then g
    else
      RowOffsetNonneg(w, rows - 1);
      FilterColumn(kind, rule, f, g, w, col, base, rows - 1)[RowOffset(w, rows - 1) + col + base :=
        RuleAt(kind, rule, f, RowOffset(w, rows - 1) + col)]
  }

  lemma FilterColumnStep(kind: SampleKind, rule: Rule, f: seq<int>, g: seq<int>, w: int, col: int, base: int,
                         rows: int)
    requires 0 <= base && 0 <= col && col + base < w && col + 1 < w && (rule == Inner ==> 1 <= col && col + 2 < w)
    requires 0 <= rows && |f| == |g| && RowOffset(w, rows + 1) <= |g|
    ensures 0 <= RowOffset(w, rows)
    ensures FilterColumn(kind, rule, f, g, w, col, base, rows + 1)
         == FilterColumn(kind, rule, f, g, w, col, base, rows)[RowOffset(w, rows) + col + base :=
              RuleAt(kind, rule, f, RowOffset(w, rows) + col)]
  {
    RowOffsetNonneg(w, rows);
  }

  /** Column `col + base` of row `j` of the interpolated plane is column
      `col` of row `j` interpolated by the rule for that column. */
  lemma InterpolatedAt(kind: SampleKind, rule: Rule, f: seq<int>, w: int, h: int, col: int, base: int, j: int)
    requires 3 <= w && 0 <= base <= 1 && col + base < w && 0 <= j < h && |f| == w * h
    requires rule == Pair ==> col == 0 || col == w - 2
    requires rule == Inner ==> 0 < col < w - 2
    ensures 0 <= RowOffset(w, j) && RowOffset(w, j) + w <= |f|
    ensures Interpolated(kind, f, w, h, base)[RowOffset(w, j) + col + base] == RuleAt(kind, rule, f, RowOffset(w, j) + col)
  {
    HorzAtCell(kind, f, w, h, j, col);
  }

  lemma {:induction false} FilterColumnIsColumnWrite(kind: SampleKind, rule: Rule, f: seq<int>, g: seq<int>,
                                                      w: int, h: int, col: int, base: int, rows: int)
    requires 3 <= w && 0 <= base <= 1 && col + base < w && 0 <= rows <= h && |f| == |g| && |f| == w * h
    requires rule == Pair ==> col == 0 || col == w - 2
    requires rule == Inner ==> 0 < col < w - 2
    requires RowOffset(w, rows) <= |g|
    ensures FilterColumn(kind, rule, f, g, w, col, base, rows)
         == ColumnWrite(g, Interpolated(kind, f, w, h, base), w, col + base, rows)
    decreases rows
  {
    if rows > 0 {
      RowOffsetNonneg(w, rows - 1);
      FilterColumnIsColumnWrite(kind, rule, f, g, w, h, col, base, rows - 1);
      InterpolatedAt(kind, rule, f, w, h, col, base, rows - 1);
    }
  }

  /** Filtering column `col` of every row patches column `col + base` with
      the interpolated plane. */
  lemma FilterColumnIsPatch(kind: SampleKind, rule: Rule, f: seq<int>, g: seq<int>, w: int, h: int,
                            col: int, base: int)
    requires 3 <= w && 0 <= base <= 1 && col + base < w && 0 <= h && |f| == |g| && |f| == w * h
    requires rule == Pair ==> col == 0 || col == w - 2
    requires rule == Inner ==> 0 < col < w - 2
    requires RowOffset(w, h) == |f|
    ensures FilterColumn(kind, rule, f, g, w, col, base, h)
         == Patch(g, Interpolated(kind, f, w, h, base), w, col + base, col + base + 1)
  {
    FilterColumnIsColumnWrite(kind, rule, f, g, w, h, col, base, h);
    ColumnWriteIsPatch(g, Interpolated(kind, f, w, h, base), w, h, col + base);
  }

  /** One more filtered column extends the patched columns `base` ..
      `col + base - 1` by one. */
  lemma FilterColumnExtends(kind: SampleKind, rule: Rule, f: seq<int>, g: seq<int>, w: int, h: int,
                            col: int, base: int)
    requires 3 <= w && 0 <= base <= 1 && 0 <= col && col + base < w && 0 <= h && |f| == |g| && |f| == w * h
    requires rule == Pair ==> col == 0 || col == w - 2
    requires rule == Inner ==> 0 < col < w - 2
    requires RowOffset(w, h) == |f|
    ensures FilterColumn(kind, rule, f, Patch(g, Interpolated(kind, f, w, h, base), w, base, col + base),
                         w, col, base, h)
         == Patch(g, Interpolated(kind, f, w, h, base), w, base, col + base + 1)
  {
    var want := Interpolated(kind, f, w, h, base);
    FilterColumnIsPatch(kind, rule, f, Patch(g, want, w, base, col + base), w, h, col, base);
    PatchExtend(g, want, w, base, col + base);
  }

  /** The edge column loops of `HalfpixelShiftHorz`: scratch column `c` takes the mean of columns `c` and `c + 1` (the source runs
      it for the first and the last column pair).  The scratch column is
      column `c + base` of `newField`. */
  method HalfColumn(field: array<int>, newField: array<int>, width: int, height: int,
                    kind: SampleKind, c: int, base: int)
    requires field != newField && 3 <= width && 0 <= height
    requires field.Length == width * height && newField.Length == field.Length
    requires 0 <= c && c + 1 < width && 0 <= base <= 1 && c + base < width
    modifies newField
    ensures RowOffset(width, height) == field.Length
    ensures newField[..] == FilterColumn(kind, Pair, old(field[..]), old(newField[..]), width, c, base, height)
  {
    ghost var f := field[..];
    ghost var g := newField[..];
    RowOffsetIsProduct(width, height);
    var j := 0;
    var row := 0;
    while j < height
      invariant 0 <= j <= height && row == RowOffset(width, j) && row <= |f|
      invariant row + RowOffset(width, height - j) == |f|
      invariant newField[..] == FilterColumn(kind, Pair, f, g, width, c, base, j)
    {
      RowOffsetNonneg(width, height - j - 1);
      assert row + width <= |f|;
      FilterColumnStep(kind, Pair, f, g, width, c, base, j);
      newField[row + c + base] := Narrow(kind, Half(field[row + c], field[row + c + 1]));
      row := row + width;
      j := j + 1;
    }
  }

  /** The body of the inner column loop of `HalfpixelShiftHorz`: an inner
      scratch column `c` weighs
      the four columns around it. */
  method TapColumn(field: array<int>, newField: array<int>, width: int, height: int,
                   kind: SampleKind, c: int, base: int)
    requires field != newField && 3 <= width && 0 <= height
    requires field.Length == width * height && newField.Length == field.Length
    requires 1 <= c && c + 2 < width && 0 <= base <= 1 && c + base < width
    modifies newField
    ensures RowOffset(width, height) == field.Length
    ensures newField[..] == FilterColumn(kind, Inner, old(field[..]), old(newField[..]), width, c, base, height)
  {
    ghost var f := field[..];
    ghost var g := newField[..];
    RowOffsetIsProduct(width, height);
    var j := 0;
    var row := 0;
    while j < height
      invariant 0 <= j <= height && row == RowOffset(width, j) && row <= |f|
      invariant row + RowOffset(width, height - j) == |f|
      invariant newField[..] == FilterColumn(kind, Inner, f, g, width, c, base, j)
    {
      RowOffsetNonneg(width, height - j - 1);
      assert row + width <= |f|;
      FilterColumnStep(kind, Inner, f, g, width, c, base, j);
      newField[row + c + base] := Narrow(kind, Tap(field[row + c - 1], field[row + c],
                                                   field[row + c + 1], field[row + c + 2]));
      row := row + width;
      j := j + 1;
    }
  }

  /** The column copy that keeps one original column: column `c` of `newField` takes
      column `c` of `field`. */
  method CopyColumn(field: array<int>, newField: array<int>, width: int, height: int, c: int)
    requires field != newField && 3 <= width && 0 <= height
    requires field.Length == width * height && newField.Length == field.Length
    requires 0 <= c < width
    modifies newField
    ensures newField[..] == Patch(old(newField[..]), old(field[..]), width, c, c + 1)
  {
    ghost var f := field[..];
    ghost var g := newField[..];
    RowOffsetIsProduct(width, height);
    var j := 0;
    var row := 0;
    while j < height
      invariant 0 <= j <= height && row == RowOffset(width, j) && row <= |f|
      invariant row + RowOffset(width, height - j) == |f|
      invariant newField[..] == ColumnWrite(g, f, width, c, j)
    {
      RowOffsetNonneg(width, height - j - 1);
      assert row + width <= |f|;
      newField[row + c] := field[row + c];
      row := row + width;
      j := j + 1;
    }
    ColumnWriteIsPatch(g, f, width, height, c);
  }

  /** Column `c` filtered by the mean rule extends the interpolated
      columns `base` .. `c + base - 1` of `newField` by one. */
  method PairStep(field: array<int>, newField: array<int>, width: int, height: int,
                  kind: SampleKind, c: int, base: int, ghost g: seq<int>)
    requires field != newField && 3 <= width && 0 <= height
    requires field.Length == width * height && newField.Length == field.Length && |g| == field.Length
    requires 0 <= base <= 1 && (c == 0 || c == width - 2)
    requires newField[..] == Patch(g, Interpolated(kind, field[..], width, height, base), width, base, c + base)
    modifies newField
    ensures newField[..] == Patch(g, Interpolated(kind, old(field[..]), width, height, base), width, base, c + base + 1)
  {
    ghost var f := field[..];
    HalfColumn(field, newField, width, height, kind, c, base);
    assert field[..] == f;
    FilterColumnExtends(kind, Pair, f, g, width, height, c, base);
  }

  /** Column `c` filtered by the four-tap rule extends the interpolated
      columns `base` .. `c + base - 1` of `newField` by one. */
  method TapStep(field: array<int>, newField: array<int>, width: int, height: int,
                 kind: SampleKind, c: int, base: int, ghost g: seq<int>)
    requires field != newField && 3 <= width && 0 <= height
    requires field.Length == width * height && newField.Length == field.Length && |g| == field.Length
    requires 0 <= base <= 1 && 1 <= c && c + 2 < width
    requires newField[..] == Patch(g, Interpolated(kind, field[..], width, height, base), width, base, c + base)
    modifies newField
    ensures newField[..] == Patch(g, Interpolated(kind, old(field[..]), width, height, base), width, base, c + base + 1)
  {
    ghost var f := field[..];
    TapColumn(field, newField, width, height, kind, c, base);
    assert field[..] == f;
    FilterColumnExtends(kind, Inner, f, g, width, height, c, base);
  }

  /** The three interpolating column loops of `HalfpixelShiftHorz`:
      scratch column `c` goes to column `c + base` of `newField`. */
  method InterpolateColumns(field: array<int>, newField: array<int>, width: int, height: int,
                            kind: SampleKind, base: int)
    requires field != newField && 3 <= width && 0 <= height
    requires field.Length == width * height && newField.Length == field.Length
    requires 0 <= base <= 1
    modifies newField
    ensures newField[..] == Patch(old(newField[..]), Interpolated(kind, old(field[..]), width, height, base),
                                  width, base, base + width - 1)
  {
    ghost var f := field[..];
    ghost var g := newField[..];
    assert g == Patch(g, Interpolated(kind, f, width, height, base), width, base, base);
    PairStep(field, newField, width, height, kind, 0, base, g);
    var i := 2;
    while i < width - 1
      invariant 2 <= i <= width - 1 && field[..] == f
      invariant newField[..] == Patch(g, Interpolated(kind, f, width, height, base), width, base, base + i - 1)
    {
      TapStep(field, newField, width, height, kind, i - 1, base, g);
      i := i + 1;
    }
    PairStep(field, newField, width, height, kind, width - 2, base, g);
  }

  /** `HalfpixelShiftHorz(field, width, height, shift_right)` as written: the interpolated columns always land in columns
      0 .. `width - 2` of the scratch plane, whose other samples start out
      as `junk`; then one original column is copied in and the scratch
      plane copied back whole. */
  method HalfpixelShiftHorz(field: array<int>, width: int, height: int, shiftRight: bool, kind: SampleKind,
                            junk: seq<int>)
    requires 3 <= width && 0 <= height && field.Length == width * height && |junk| == field.Length
    modifies field
    ensures field[..] == ShiftHorzAsWritten(kind, old(field[..]), width, height, shiftRight, junk)
  {
    var newField := new int[width * height](k requires 0 <= k < |junk| => junk[k]);
    ghost var f := field[..];
    assert newField[..] == junk;
    InterpolateColumns(field, newField, width, height, kind, 0);
    var c := if shiftRight then 0 else width - 1;
    CopyColumn(field, newField, width, height, c);
    assert field[..] == f;
    HorzAsWrittenAssembled(kind, f, width, height, shiftRight, junk);
    MemCopy(field, 0, newField, 0, width * height);
    assert field[..] == field[0..width * height];
  }

  /** The scratch plane `HalfpixelShiftHorz` assembles is the as-written
      shifted plane. */
  lemma HorzAsWrittenAssembled(kind: SampleKind, f: seq<int>, w: int, h: int, right: bool, junk: seq<int>)
    requires 3 <= w && |f| == w * h && |junk| == |f|
    ensures var c := if right then 0 else w - 1;
      Patch(Patch(junk, Interpolated(kind, f, w, h, 0), w, 0, w - 1), f, w, c, c + 1)
        == ShiftHorzAsWritten(kind, f, w, h, right, junk)
  {
  }

  /** The corrected `HalfpixelShiftHorz`: when shifting right, the
      interpolated columns land one column further right, behind the kept
      first column. */
  method HalfpixelShiftHorzFixed(field: array<int>, width: int, height: int, shiftRight: bool, kind: SampleKind)
    requires 3 <= width && 0 <= height && field.Length == width * height
    modifies field
    ensures field[..] == ShiftHorz(kind, old(field[..]), width, height, shiftRight)
  {
    var newField := new int[width * height];
    ghost var f := field[..];
    ghost var g := newField[..];
    var base := if shiftRight then 1 else 0;
    InterpolateColumns(field, newField, width, height, kind, base);
    var c := if shiftRight then 0 else width - 1;
    CopyColumn(field, newField, width, height, c);
    assert field[..] == f;
    HorzAssembled(kind, f, g, width, height, shiftRight);
    MemCopy(field, 0, newField, 0, width * height);
    assert field[..] == field[0..width * height];
  }

  /** Interpolating from column `base` and copying the one column left
      over gives the shifted plane, whatever the scratch plane held. */
  lemma HorzAssembled(kind: SampleKind, f: seq<int>, g: seq<int>, w: int, h: int, right: bool)
    requires 3 <= w && |f| == w * h && |g| == |f|
    ensures var base := if right then 1 else 0;
      var c := if right then 0 else w - 1;
      Patch(Patch(g, Interpolated(kind, f, w, h, base), w, base, base + w - 1), f, w, c, c + 1)
        == ShiftHorz(kind, f, w, h, right)
  {
  }

  // ---------------------------------------------------------------------
  // Properties of the shifted planes

  /** A flat plane of a representable value stays flat under the
      vertical shift, in both directions. */
  lemma VertKeepsFlat(kind: SampleKind, f: seq<int>, v: int, w: int, up: bool)
    requires Fits(kind, v) && 0 <= w <= |f| && forall k :: 0 <= k < |f| ==> f[k] == v
    ensures ShiftVert(kind, f, w, up) == f
  {
    FiltersKeepConstant(v);
    assert forall n :: 0 <= n < |f| - w ==> VertAt(kind, f, w, n) == v;
  }

  /** A flat plane of a representable value stays flat under the
      horizontal shift, in both directions. */
  lemma HorzKeepsFlat(kind: SampleKind, f: seq<int>, v: int, w: int, h: int, right: bool)
    requires Fits(kind, v) && 3 <= w && |f| == w * h && forall k :: 0 <= k < |f| ==> f[k] == v
    ensures ShiftHorz(kind, f, w, h, right) == f
  {
    FiltersKeepConstant(v);
    forall n | 0 <= n < |f|
      ensures HorzAt(kind, f, w, h, n) == v
    {
      RowStart(w, h, n);
    }
  }

  /** Shifted planes hold samples of their type. */
  lemma ShiftsFit(kind: SampleKind, f: seq<int>, w: int, h: int, up: bool, right: bool)
    requires PlaneFits(kind, f) && 3 <= w && 1 <= h && |f| == w * h
    ensures w <= |f|
    ensures PlaneFits(kind, ShiftVert(kind, f, w, up)) && PlaneFits(kind, ShiftHorz(kind, f, w, h, right))
  {
    MulMono(1, h, w);
    forall n | 0 <= n < |f|
      ensures Fits(kind, HorzAt(kind, f, w, h, n))
    {
      RowStart(w, h, n);
    }
    var g := ShiftVert(kind, f, w, up);
    forall n | 0 <= n < |f|
      ensures Fits(kind, g[n])
    {
      if (up && w <= n) || (!up && n < |f| - w) {
        assert g[n] == VertAt(kind, f, w, if up then n - w else n);
      } else {
        assert g[n] == f[n];
      }
    }
    var e := ShiftHorz(kind, f, w, h, right);
    assert forall n :: 0 <= n < |f| ==> Fits(kind, e[n]);
  }

  /** 16-bit planes whose samples stay within two thirds of the range are
      interpolated exactly: the cast never wraps. */
  lemma ShortShiftIsExact(f: seq<int>, w: int, n: int)
    requires 0 <= w && 0 <= n < |f| - w
    requires forall k :: 0 <= k < |f| ==> -21845 <= f[k] <= 21845
    ensures VertAt(I16, f, w, n) ==
      if n < w || n >= |f| - 2 * w then Half(f[n], f[n + w])
      else Tap(f[n - w], f[n], f[n + w], f[n + 2 * w])
  {
    if n < w || n >= |f| - 2 * w {
      FiltersFitShort(f[n], f[n], f[n + w], f[n + w]);
    } else {
      FiltersFitShort(f[n - w], f[n], f[n + w], f[n + 2 * w]);
    }
  }

  /** As written, shifting right leaves the left-shift samples in columns
      1 .. `w - 2`: on the row 0, 2, 4 column 1 holds 3, the sample
      halfway between the second and the third pixel, where the right
      shift puts 1, the one halfway between the first and the second. */
  lemma AsWrittenRightMisplaced(junk: seq<int>)
    requires |junk| == 3
    ensures ShiftHorzAsWritten(U8, [0, 2, 4], 3, 1, true, junk)[1] == 3
    ensures ShiftHorz(U8, [0, 2, 4], 3, 1, true)[1] == 1
  {
    assert ColOf(3, 1) == 1 && ColOf(3, 0) == 0;
    assert RowOf(3, 1) == 0 && RowOf(3, 0) == 0;
  }

  /** As written, shifting a flat plane right copies the scratch memory
      into the last column, so the plane does not stay flat. */
  lemma AsWrittenRightNotFlat()
    ensures ShiftHorzAsWritten(U8, [0, 0, 0], 3, 1, true, [1, 1, 1])[2] == 1
  {
    assert ColOf(3, 2) == 2;
  }
}
