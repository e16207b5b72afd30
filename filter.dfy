// The integer parts of the video filter around the estimator (filter.cpp):
// the `clamp` helper and the script settings it bounds, the edge-replicating
// border of the padded luma plane, the three half-pixel shifted reference
// planes, the motion-compensated luma frame and the luma residual.
//
// Planes are flat arrays of samples.  A padded luma plane has BORDER extra
// columns on each side of a frame row and BORDER extra rows above and below
// the frame, so frame pixel (x, y) sits at row BORDER + y, column
// BORDER + x.
module Filter {
  import opened Grid
  import opened Vectors
  import opened Search
  import opened HalfPixel
  import opened Estimator

  /** `clamp(value, a, b)`: the upper bound is compared first,
      so with `a > b` the result is `b` or `a`. */
  function Clamp(v: int, a: int, b: int): (r: int)
    ensures a <= b ==> a <= r <= b
    ensures a <= v <= b ==> r == v
    ensures a <= b && v <= a ==> r == a
    ensures a <= b && v >= b ==> r == b
  {
    if v >= b then b else if v <= a then a else v
  }

  /** Clamping keeps the order of its inputs. */
  lemma {:induction false} ClampMonotone(v1: int, v2: int, a: int, b: int)
    requires a <= b && v1 <= v2
    ensures Clamp(v1, a, b) <= Clamp(v2, a, b)
  {
  }

  // ---------------------------------------------------------------------
  // Script settings

  /** The settings a script can give the filter.  The output type is kept
      as its integer code: the enumeration it is cast to is declared in
      filter.hpp, which is not part of this model. */
  datatype Config = Config(outputType: int, showVectors: bool, drawNothing: bool,
                           measurePsnr: bool, quality: int, useHalfPixel: bool)

  /** The ranges `ScriptConfig` establishes. */
  predicate ValidConfig(c: Config)
  {
    0 <= c.outputType <= 3 && 0 <= c.quality <= 100
  }

  /** `ScriptConfig(isi, argv, argc)` for the six integer arguments of the
      script method: the output type
      is clamped to 0 .. 3, the quality to 0 .. 100, and each flag is true
      when its argument is non-zero. */
  function ScriptConfig(args: seq<int>): (c: Config)
    requires |args| == 6
    ensures ValidConfig(c)
    ensures 0 <= args[0] <= 3 ==> c.outputType == args[0]
    ensures 0 <= args[4] <= 100 ==> c.quality == args[4]
    ensures c.showVectors == (args[1] != 0) && c.drawNothing == (args[2] != 0)
    ensures c.measurePsnr == (args[3] != 0) && c.useHalfPixel == (args[5] != 0)
  {
    Config(Clamp(args[0], 0, 3), args[1] != 0, args[2] != 0, args[3] != 0, Clamp(args[4], 0, 100), args[5] != 0)
  }

  /** The arguments `GetScriptString` prints into the
      `Config(...)` call: the output type, the four flags as 0 or 1, the
      quality. */
  function ScriptArgs(c: Config): (args: seq<int>)
    ensures |args| == 6
  {
    [c.outputType, if c.showVectors then 1 else 0, if c.drawNothing then 1 else 0,
     if c.measurePsnr then 1 else 0, c.quality, if c.useHalfPixel then 1 else 0]
  }

  /** Saving the settings as a script and running that script gives back
      the same settings, for every setting `ScriptConfig` can produce. */
  lemma {:induction false} ScriptRoundTrip(c: Config)
    requires ValidConfig(c)
    ensures ScriptConfig(ScriptArgs(c)) == c
  {
  }

  // ---------------------------------------------------------------------
  // Borders of the padded luma plane

  /** A padded stride or height: `n` plus a border on each side. */
  function Ext(n: int): int
  {
    n + 2 * BORDER
  }

  /** Where the frame rows of a padded plane of width `w` begin: after
      BORDER whole rows. */
  function Top(w: int): int
  {
    BORDER * Ext(w)
  }

  /** Where the frame rows of a padded plane of `w` x `h` pixels end. */
  function Bottom(w: int, h: int): int
  {
    Top(w) + RowOffset(Ext(w), h)
  }

  /** A padded plane is BORDER rows, the frame rows, BORDER rows. */
  lemma {:induction false} PlaneRows(w: int, h: int)
    requires 1 <= w && 1 <= h
    ensures Ext(w) <= RowOffset(Ext(w), h)
    ensures RowOffset(Ext(w), Ext(h)) == Bottom(w, h) + Top(w)
  {
    RowsAfter(Ext(w), h, 2 * BORDER);
    RowOffsetNonneg(Ext(w), h - 1);
  }

  /** Frame row `r - BORDER` starts `Top(w)` samples into the plane. */
  lemma {:induction false} FrameRowAt(w: int, r: int)
    ensures RowOffset(Ext(w), r) == Top(w) + RowOffset(Ext(w), r - BORDER)
  {
    RowsAfter(Ext(w), r - BORDER, BORDER);
  }

  /** Row `r` below the frame of `h` rows starts `r - BORDER - h` rows after
      `Bottom(w, h)`. */
  lemma {:induction false} RowBelowFrame(w: int, h: int, r: int)
    requires BORDER + h <= r
    ensures RowOffset(Ext(w), r) == Bottom(w, h) + RowOffset(Ext(w), r - BORDER - h)
  {
    FrameRowAt(w, r);
    RowOffsetAdd(Ext(w), h, r - BORDER - h);
  }

  /** A padded row whose frame part is `row[BORDER..BORDER + w]`, with its
      left border filled with the first frame pixel and its right border
      with the last (see `PadRowSample`). */
  function PadRow(row: seq<int>, w: int): (p: seq<int>)
    requires 1 <= w && |row| == Ext(w)
    ensures |p| == |row|
  {
    seq(BORDER, _ => row[BORDER]) + row[BORDER..BORDER + w] + seq(BORDER, _ => row[BORDER + w - 1])
  }

  /** Every sample of a padded row is the frame sample nearest to it. */
  lemma {:induction false} PadRowSample(row: seq<int>, w: int, i: int)
    requires 1 <= w && |row| == Ext(w) && 0 <= i < |row|
    ensures PadRow(row, w)[i] == row[Clamp(i, BORDER, BORDER + w - 1)]
  {
  }

  /** `n` copies of the row `x`, one after the other (see `RepeatRow`). */
  function Repeat(x: seq<int>, n: nat): (s: seq<int>)
    requires 0 < |x|
    ensures |s| == n * |x|
  {
    seq(n * |x|, i requires 0 <= i < n * |x| => x[ColOf(|x|, i)])
  }

  /** The flat index of the frame pixel nearest to sample `i` of a padded
      plane of `w` x `h` pixels: its row clamped into the frame rows, its
      column into the frame columns. */
  function Nearest(w: int, h: int, i: int): (n: int)
    requires 1 <= w && 1 <= h && 0 <= i
    ensures Top(w) <= n < Bottom(w, h)
  {
    var we := Ext(w);
    var k := Clamp(RowOf(we, i) - BORDER, 0, h - 1);
    RowWithin(we, k, h);
    Top(w) + RowOffset(we, k) + Clamp(ColOf(we, i), BORDER, BORDER + w - 1)
  }

  /** The padded plane `f` with its borders filled: every sample is the
      frame pixel nearest to it. */
  function Filled(f: seq<int>, w: int, h: int): (g: seq<int>)
    requires 1 <= w && 1 <= h && |f| == RowOffset(Ext(w), Ext(h))
    ensures |g| == |f|
  {
    PlaneRows(w, h);
    seq(|f|, i requires 0 <= i < |f| => f[Nearest(w, h, i)])
  }

  /** `FillBorders()`: pads the frame rows, then copies the
      first padded frame row into the BORDER rows above it and the last
      one into the BORDER rows below it. */
  method FillBorders(curY: array<int>, width: int, height: int)
    requires 1 <= width && 1 <= height && curY.Length == Ext(width) * Ext(height)
    modifies curY
    ensures |curY[..]| == RowOffset(Ext(width), Ext(height))
    ensures curY[..] == Filled(old(curY[..]), width, height)
  {
    RowOffsetIsProduct(Ext(width), Ext(height));
    PlaneRows(width, height);
    ghost var f := curY[..];
    PadFrameRows(curY, width, height);
    ghost var a1 := curY[..];
    FillTop(curY, Top(width), Ext(width));
    ghost var a2 := curY[..];
    FillBottom(curY, Bottom(width, height), Ext(width));
    BordersAssembled(f, a1, a2, curY[..], width, height);
  }

  /** The three loops of `FillBorders` together build `Filled`. */
  lemma {:induction false} BordersAssembled(f: seq<int>, a1: seq<int>, a2: seq<int>, c: seq<int>, w: int, h: int)
    requires 1 <= w && 1 <= h && |f| == RowOffset(Ext(w), Ext(h))
    requires Ext(w) <= RowOffset(Ext(w), h) && |f| == Bottom(w, h) + Top(w)
    requires |a1| == |f| && |a2| == |f| && |c| == |f|
    requires a1[Top(w)..Bottom(w, h)] == Filled(f, w, h)[Top(w)..Bottom(w, h)]
    requires a2[..Top(w)] == Repeat(a1[Top(w)..Top(w) + Ext(w)], BORDER) && a2[Top(w)..] == a1[Top(w)..]
    requires c[..Bottom(w, h)] == a2[..Bottom(w, h)]
    requires c[Bottom(w, h)..] == Repeat(a2[Bottom(w, h) - Ext(w)..Bottom(w, h)], BORDER)
    ensures c == Filled(f, w, h)
  {
    var top, bottom, g := Top(w), Bottom(w, h), Filled(f, w, h);
    assert 0 <= top && top + Ext(w) <= bottom && bottom <= |g|;
    PartsCopied(a1, a2, c, g, top, bottom, Ext(w));
    FilledFromParts(f, c, w, h);
  }

  /** How the three loops pass the frame rows `g[top..bottom]` along: the
      second loop copies the first of them above, the third the last of
      them below. */
  lemma {:induction false} PartsCopied(a1: seq<int>, a2: seq<int>, c: seq<int>, g: seq<int>, top: int, bottom: int, we: int)
    requires 0 < we && 0 <= top && top + we <= bottom && bottom <= |g| && |a1| == |g| && |a2| == |g| && |c| == |g|
    requires a1[top..bottom] == g[top..bottom]
    requires a2[..top] == Repeat(a1[top..top + we], BORDER) && a2[top..] == a1[top..]
    requires c[..bottom] == a2[..bottom]
    requires c[bottom..] == Repeat(a2[bottom - we..bottom], BORDER)
    ensures c[..top] == Repeat(g[top..top + we], BORDER)
    ensures c[top..bottom] == g[top..bottom]
    ensures c[bottom..] == Repeat(g[bottom - we..bottom], BORDER)
  {
    // the first frame row, which the second loop copies
    SubSlice(a1, top, bottom, top, top + we);
    SubSlice(g, top, bottom, top, top + we);
    assert a1[top..top + we] == g[top..top + we];
    SliceOfPrefix(c, a2, bottom, 0, top);
    // the frame rows
    SliceOfPrefix(c, a2, bottom, top, bottom);
    SliceOfSuffix(a2, a1, top, top, bottom);
    // the last frame row, which the third loop copies
    SubSlice(a1, top, bottom, bottom - we, bottom);
    SubSlice(g, top, bottom, bottom - we, bottom);
    SliceOfSuffix(a2, a1, top, bottom - we, bottom);
    assert a2[bottom - we..bottom] == g[bottom - we..bottom];
  }

  /** A plane made of BORDER copies of the first frame row of the filled
      plane, its frame rows and BORDER copies of its last frame row is the
      filled plane. */
  lemma {:induction false} FilledFromParts(f: seq<int>, c: seq<int>, w: int, h: int)
    requires 1 <= w && 1 <= h && |f| == RowOffset(Ext(w), Ext(h))
    requires Ext(w) <= RowOffset(Ext(w), h) && |f| == Bottom(w, h) + Top(w) && |c| == |f|
    requires c[..Top(w)] == Repeat(Filled(f, w, h)[Top(w)..Top(w) + Ext(w)], BORDER)
    requires c[Top(w)..Bottom(w, h)] == Filled(f, w, h)[Top(w)..Bottom(w, h)]
    requires c[Bottom(w, h)..] == Repeat(Filled(f, w, h)[Bottom(w, h) - Ext(w)..Bottom(w, h)], BORDER)
    ensures c == Filled(f, w, h)
  {
    var top, bottom, g := Top(w), Bottom(w, h), Filled(f, w, h);
    forall i | 0 <= i < |c|
      ensures c[i] == g[i]
    {
      if i < top {
        assert c[i] == c[..top][i];
        AboveFrameFilled(f, w, h, i);
      } else if i < bottom {
        assert c[i] == c[top..bottom][i - top];
        assert g[i] == g[top..bottom][i - top];
      } else {
        assert c[i] == c[bottom..][i - bottom];
        BelowFrameFilled(f, w, h, i);
      }
    }
  }

  /** `a[lo..hi]` cut at `i` and `j` is `a[i..j]`. */
  lemma {:induction false} SubSlice(a: seq<int>, lo: int, hi: int, i: int, j: int)
    requires 0 <= lo <= i <= j <= hi <= |a|
    ensures a[lo..hi][i - lo..j - lo] == a[i..j]
  {
    forall k | 0 <= k < j - i
      ensures a[lo..hi][i - lo..j - lo][k] == a[i..j][k]
    {
      assert a[lo..hi][i - lo..j - lo][k] == a[lo..hi][k + i - lo];
    }
  }

  /** `a[i..k]` is `a[i..j]` followed by `a[j..k]`. */
  lemma {:induction false} Split2(a: seq<int>, i: int, j: int, k: int)
    requires 0 <= i <= j <= k <= |a|
    ensures a[i..k] == a[i..j] + a[j..k]
  {
  }

  /** Row `r` of `Repeat(x, n)` is `x`. */
  lemma {:induction false} RepeatRow(x: seq<int>, n: nat, r: nat)
    requires 0 < |x| && r < n
    ensures 0 <= RowOffset(|x|, r) && RowOffset(|x|, r) + |x| <= n * |x|
    ensures Repeat(x, n)[RowOffset(|x|, r)..RowOffset(|x|, r) + |x|] == x
  {
    RowInBand(|x|, r, n);
    var p := RowOffset(|x|, r);
    var s := Repeat(x, n)[p..p + |x|];
    forall j | 0 <= j < |x|
      ensures s[j] == x[j]
    {
      ColOfOffset(|x|, r, j);
      assert s[j] == Repeat(x, n)[p + j];
    }
    assert s == x;
  }

  /** The two `memset`s of one frame row: the BORDER
      samples before the frame part take its first pixel, the BORDER after
      it its last. */
  method PadRowAt(curY: array<int>, p: int, width: int)
    requires 1 <= width && 0 <= p && p + Ext(width) <= curY.Length
    modifies curY
    ensures curY[p..p + Ext(width)] == PadRow(old(curY[p..p + Ext(width)]), width)
    ensures curY[..p] == old(curY[..p]) && curY[p + Ext(width)..] == old(curY[p + Ext(width)..])
  {
    ghost var row := curY[p..p + Ext(width)];
    ghost var before := curY[..];
    var q := p + BORDER + width;
    var first := curY[p + BORDER];
    MemSet(curY, p, first, BORDER);
    ghost var mid := curY[..];
    // the frame part and what follows it are as they were
    SliceOfSuffix(mid, before, p + BORDER, p + BORDER, q);
    SliceOfSuffix(mid, before, p + BORDER, q + BORDER, |mid|);
    var last := curY[q - 1];
    assert last == before[q - 1] by {
      assert mid[q - 1] == mid[p + BORDER..][q - 1 - p - BORDER];
    }
    MemSet(curY, q, last, BORDER);
    ghost var c := curY[..];
    SliceOfPrefix(c, mid, q, p, p + BORDER);
    SliceOfPrefix(c, mid, q, p + BORDER, q);
    SliceOfPrefix(c, mid, q, p, p);
    SubSlice(before, p, p + Ext(width), p + BORDER, q);
    Split2(c, p, q, q + BORDER);
    Split2(c, p, p + BORDER, q);
    PadRowOfParts(row, width, first, c[p + BORDER..q], last);
  }

  /** A row padded with its first and last frame pixels is `PadRow`. */
  lemma {:induction false} PadRowOfParts(row: seq<int>, w: int, first: int, frame: seq<int>, last: int)
    requires 1 <= w && |row| == Ext(w)
    requires first == row[BORDER] && frame == row[BORDER..BORDER + w] && last == row[BORDER + w - 1]
    ensures seq(BORDER, _ => first) + frame + seq(BORDER, _ => last) == PadRow(row, w)
  {
  }


  /** The first loop of `FillBorders`: every frame row is
      padded, which makes the frame rows those of the filled plane; the
      rows above and below the frame are not touched. */
  method PadFrameRows(curY: array<int>, width: int, height: int)
    requires 1 <= width && 1 <= height && curY.Length == RowOffset(Ext(width), Ext(height))
    modifies curY
    ensures Top(width) <= Bottom(width, height) <= curY.Length
    ensures curY[..Top(width)] == old(curY[..Top(width)])
    ensures curY[Top(width)..Bottom(width, height)] ==
      Filled(old(curY[..]), width, height)[Top(width)..Bottom(width, height)]
    ensures curY[Bottom(width, height)..] == old(curY[Bottom(width, height)..])
  {
    var we := Ext(width);
    PlaneRows(width, height);
    ghost var f := curY[..];
    var top := BORDER * we;
    var p := top;
    var y := 0;
    while y < height
      invariant 0 <= y <= height && p == top + RowOffset(we, y) && top <= p <= Bottom(width, height)
      invariant curY[..top] == f[..top]
      invariant curY[top..p] == Filled(f, width, height)[top..p]
      invariant curY[p..] == f[p..]
    {
      RowWithin(we, y, height);
      PadStep(curY, width, height, p, f, y);
      p := p + we;
      y := y + 1;
    }
  }

  /** One turn of the first loop: frame row `y` is padded. */
  method PadStep(curY: array<int>, width: int, height: int, p: int, ghost f: seq<int>, ghost y: nat)
    requires 1 <= width && 1 <= height && |f| == RowOffset(Ext(width), Ext(height)) && curY.Length == |f|
    requires Ext(width) <= RowOffset(Ext(width), height) && |f| == Bottom(width, height) + Top(width)
    requires y < height && 0 <= RowOffset(Ext(width), y) && RowOffset(Ext(width), y) + Ext(width) <= RowOffset(Ext(width), height)
    requires p == Top(width) + RowOffset(Ext(width), y)
    requires curY[..Top(width)] == f[..Top(width)] && curY[p..] == f[p..]
    requires curY[Top(width)..p] == Filled(f, width, height)[Top(width)..p]
    modifies curY
    ensures curY[..Top(width)] == f[..Top(width)] && curY[p + Ext(width)..] == f[p + Ext(width)..]
    ensures curY[Top(width)..p + Ext(width)] == Filled(f, width, height)[Top(width)..p + Ext(width)]
  {
    ghost var before := curY[..];
    PadRowAt(curY, p, width);
    PadStepped(f, before, curY[..], width, height, p, y);
  }

  lemma {:induction false} PadStepped(f: seq<int>, before: seq<int>, after: seq<int>, w: int, h: int, p: int, y: nat)
    requires 1 <= w && 1 <= h && |f| == RowOffset(Ext(w), Ext(h))
    requires Ext(w) <= RowOffset(Ext(w), h) && |f| == Bottom(w, h) + Top(w)
    requires y < h && 0 <= RowOffset(Ext(w), y) && RowOffset(Ext(w), y) + Ext(w) <= RowOffset(Ext(w), h)
    requires p == Top(w) + RowOffset(Ext(w), y) && |before| == |f| && |after| == |f|
    requires before[..Top(w)] == f[..Top(w)] && before[p..] == f[p..]
    requires before[Top(w)..p] == Filled(f, w, h)[Top(w)..p]
    requires after[p..p + Ext(w)] == PadRow(before[p..p + Ext(w)], w)
    requires after[..p] == before[..p] && after[p + Ext(w)..] == before[p + Ext(w)..]
    ensures after[..Top(w)] == f[..Top(w)] && after[p + Ext(w)..] == f[p + Ext(w)..]
    ensures after[Top(w)..p + Ext(w)] == Filled(f, w, h)[Top(w)..p + Ext(w)]
  {
    var top, q := Top(w), p + Ext(w);
    var g := Filled(f, w, h);
    SliceOfPrefix(after, before, p, top, p);
    SliceOfPrefix(after, before, p, 0, top);
    SliceOfSuffix(before, f, p, p, q);
    SliceOfSuffix(before, f, p, q, q);
    FilledFrameRow(f, w, h, y);
    Split2(after, top, p, q);
    Split2(g, top, p, q);
  }

  /** Frame row `y` of the filled plane is frame row `y` of the plane,
      padded. */
  lemma {:induction false} FilledFrameRow(f: seq<int>, w: int, h: int, y: int)
    requires 1 <= w && 1 <= h && |f| == RowOffset(Ext(w), Ext(h))
    requires Ext(w) <= RowOffset(Ext(w), h) && |f| == Bottom(w, h) + Top(w)
    requires 0 <= y < h
    ensures 0 <= RowOffset(Ext(w), y) && RowOffset(Ext(w), y) + Ext(w) <= RowOffset(Ext(w), h)
    ensures Filled(f, w, h)[Top(w) + RowOffset(Ext(w), y)..Top(w) + RowOffset(Ext(w), y) + Ext(w)] ==
      PadRow(f[Top(w) + RowOffset(Ext(w), y)..Top(w) + RowOffset(Ext(w), y) + Ext(w)], w)
  {
    var we := Ext(w);
    RowWithin(we, y, h);
    var p := Top(w) + RowOffset(we, y);
    var g, row := Filled(f, w, h), PadRow(f[p..p + we], w);
    forall c | 0 <= c < we
      ensures g[p..p + we][c] == row[c]
    {
      FrameRowSample(f, w, h, y, c);
      PadRowSample(f[p..p + we], w, c);
      assert row[c] == f[p..p + we][Clamp(c, BORDER, BORDER + w - 1)];
    }
  }

  /** The second loop of `FillBorders`: each of the BORDER
      rows above the frame copies the first padded frame row, which starts
      at `row` and is `we` samples wide. */
  method FillTop(curY: array<int>, row: int, we: int)
    requires 0 < we && row == BORDER * we && row + we <= curY.Length
    modifies curY
    ensures curY[..row] == Repeat(old(curY[row..row + we]), BORDER)
    ensures curY[row..] == old(curY[row..])
  {
    ghost var f := curY[..];
    ghost var band := Repeat(f[row..row + we], BORDER);
    var p := 0;
    var y := 0;
    while y < BORDER
      invariant 0 <= y <= BORDER && p == RowOffset(we, y) && 0 <= p <= row
      invariant curY[..p] == band[..p]
      invariant curY[row..] == f[row..]
    {
      RowInBand(we, y, BORDER);
      TopStep(curY, p, row, we, f, y);
      p := p + we;
      y := y + 1;
    }
    BandRows(we, y);
    assert band[..p] == band;
  }

  /** One turn of the second loop: the first padded frame row is copied
      once more above the frame. */
  method TopStep(curY: array<int>, p: int, row: int, we: int, ghost f: seq<int>, ghost y: nat)
    requires 0 < we && 0 <= y < BORDER && p == RowOffset(we, y) && row == BORDER * we
    requires 0 <= p && p + we <= row && row + we <= curY.Length && |f| == curY.Length
    requires curY[..p] == Repeat(f[row..row + we], BORDER)[..p] && curY[row..] == f[row..]
    modifies curY
    ensures curY[..p + we] == Repeat(f[row..row + we], BORDER)[..p + we] && curY[row..] == f[row..]
  {
    RepeatRow(f[row..row + we], BORDER, y);
    ghost var before := curY[..];
    MemCopyWithin(curY, p, row, we);
    TopStepped(f, before, curY[..], p, row, we, y);
  }

  lemma {:induction false} TopStepped(f: seq<int>, before: seq<int>, after: seq<int>, p: int, row: int, we: int, y: nat)
    requires 0 < we && 0 <= y < BORDER && p == RowOffset(we, y) && row == BORDER * we
    requires 0 <= p && p + we <= row && row + we <= |f| && |before| == |f| && |after| == |f|
    requires before[..p] == Repeat(f[row..row + we], BORDER)[..p] && before[row..] == f[row..]
    requires after[p..p + we] == before[row..row + we]
    requires after[..p] == before[..p] && after[p + we..] == before[p + we..]
    ensures after[..p + we] == Repeat(f[row..row + we], BORDER)[..p + we] && after[row..] == f[row..]
  {
    var band := Repeat(f[row..row + we], BORDER);
    RepeatRow(f[row..row + we], BORDER, y);
    SliceOfSuffix(before, f, row, row, row + we);
    SliceOfSuffix(after, before, p + we, row, row);
    SplitPrefix(after, p, p + we);
    SplitPrefix(band, p, p + we);
  }

  /** `a[..k]` is `a[..j]` followed by `a[j..k]`. */
  lemma {:induction false} SplitPrefix(a: seq<int>, j: int, k: int)
    requires 0 <= j <= k <= |a|
    ensures a[..k] == a[..j] + a[j..k]
  {
  }

  /** BORDER rows of stride `we` make a band of `BORDER * we` samples. */
  lemma {:induction false} BandRows(we: int, y: int)
    requires y == BORDER
    ensures RowOffset(we, y) == BORDER * we
  {
    RowOffsetIsProduct(we, y);
  }

  /** The third loop of `FillBorders`: each of the BORDER
      rows from `bottom` on copies the last padded frame row, the `we`
      samples just before `bottom`. */
  method FillBottom(curY: array<int>, bottom: int, we: int)
    requires 0 < we <= bottom && bottom + BORDER * we == curY.Length
    modifies curY
    ensures curY[..bottom] == old(curY[..bottom])
    ensures curY[bottom..] == Repeat(old(curY[bottom - we..bottom]), BORDER)
  {
    ghost var f := curY[..];
    ghost var band := Repeat(f[bottom - we..bottom], BORDER);
    var p := bottom;
    var y := 0;
    while y < BORDER
      invariant 0 <= y <= BORDER && p == bottom + RowOffset(we, y) && bottom <= p <= curY.Length
      invariant curY[..bottom] == f[..bottom]
      invariant curY[bottom..p] == band[..p - bottom]
    {
      RowInBand(we, y, BORDER);
      BottomStep(curY, bottom, p, we, f, y);
      p := p + we;
      y := y + 1;
    }
    BandRows(we, y);
    assert band[..p - bottom] == band;
    assert curY[bottom..] == curY[bottom..p];
  }

  /** One turn of the third loop: the last padded frame row is copied once
      more below the frame. */
  method BottomStep(curY: array<int>, bottom: int, p: int, we: int, ghost f: seq<int>, ghost y: nat)
    requires 0 < we <= bottom && 0 <= y < BORDER && p == bottom + RowOffset(we, y)
    requires 0 <= RowOffset(we, y) && RowOffset(we, y) + we <= BORDER * we
    requires bottom + BORDER * we <= curY.Length && |f| == curY.Length
    requires curY[..bottom] == f[..bottom]
    requires curY[bottom..p] == Repeat(f[bottom - we..bottom], BORDER)[..p - bottom]
    modifies curY
    ensures curY[..bottom] == f[..bottom]
    ensures curY[bottom..p + we] == Repeat(f[bottom - we..bottom], BORDER)[..p + we - bottom]
  {
    RepeatRow(f[bottom - we..bottom], BORDER, y);
    ghost var before := curY[..];
    MemCopyWithin(curY, p, bottom - we, we);
    BottomStepped(f, before, curY[..], bottom, p, we, y);
  }

  lemma {:induction false} BottomStepped(f: seq<int>, before: seq<int>, after: seq<int>, bottom: int, p: int, we: int, y: nat)
    requires 0 < we <= bottom && 0 <= y < BORDER && p == bottom + RowOffset(we, y)
    requires 0 <= RowOffset(we, y) && RowOffset(we, y) + we <= BORDER * we
    requires p + we <= |f| && |before| == |f| && |after| == |f|
    requires before[..bottom] == f[..bottom]
    requires before[bottom..p] == Repeat(f[bottom - we..bottom], BORDER)[..p - bottom]
    requires after[p..p + we] == before[bottom - we..bottom] && after[..p] == before[..p]
    ensures after[..bottom] == f[..bottom]
    ensures after[bottom..p + we] == Repeat(f[bottom - we..bottom], BORDER)[..p + we - bottom]
  {
    var band := Repeat(f[bottom - we..bottom], BORDER);
    RepeatRow(f[bottom - we..bottom], BORDER, y);
    SliceOfPrefix(before, f, bottom, bottom - we, bottom);
    SliceOfPrefix(after, before, p, bottom, p);
    Split2(after, bottom, p, p + we);
    SplitPrefix(band, p - bottom, p + we - bottom);
  }

  /** Sample `i` of the filled plane is the frame pixel nearest to it. */
  lemma {:induction false} FilledAt(f: seq<int>, w: int, h: int, i: int)
    requires 1 <= w && 1 <= h && |f| == RowOffset(Ext(w), Ext(h)) && 0 <= i < |f|
    ensures 0 <= Nearest(w, h, i) < |f| && Filled(f, w, h)[i] == f[Nearest(w, h, i)]
  {
    PlaneRows(w, h);
  }

  /** The frame pixel nearest to row `r` and column `c` of the padded
      plane. */
  lemma {:induction false} NearestAt(w: int, h: int, r: int, c: int)
    requires 1 <= w && 1 <= h && 0 <= r && 0 <= c < Ext(w)
    ensures 0 <= RowOffset(Ext(w), r) + c
    ensures Nearest(w, h, RowOffset(Ext(w), r) + c) ==
      Top(w) + RowOffset(Ext(w), Clamp(r - BORDER, 0, h - 1)) + Clamp(c, BORDER, BORDER + w - 1)
  {
    OffsetDecodes(Ext(w), r, c);
  }

  /** The rows above the frame: sample `i` of BORDER copies of the first
      frame row of the filled plane is sample `i` of the filled plane. */
  lemma {:induction false} AboveFrameFilled(f: seq<int>, w: int, h: int, i: int)
    requires 1 <= w && 1 <= h && |f| == RowOffset(Ext(w), Ext(h))
    requires Ext(w) <= RowOffset(Ext(w), h) && |f| == Bottom(w, h) + Top(w)
    requires 0 <= i < Top(w)
    ensures Repeat(Filled(f, w, h)[Top(w)..Top(w) + Ext(w)], BORDER)[i] == Filled(f, w, h)[i]
  {
    var g, c := Filled(f, w, h), ColOf(Ext(w), i);
    var first := g[Top(w)..Top(w) + Ext(w)];
    assert Repeat(first, BORDER)[i] == first[c] == g[Top(w) + c];
    AboveRowAt(f, w, h, i);
    FirstRowAt(f, w, h, c);
  }

  /** A sample above the frame reads the first frame row. */
  lemma {:induction false} AboveRowAt(f: seq<int>, w: int, h: int, i: int)
    requires 1 <= w && 1 <= h && |f| == RowOffset(Ext(w), Ext(h)) && 0 <= i < Top(w)
    requires |f| == Bottom(w, h) + Top(w) && Ext(w) <= RowOffset(Ext(w), h)
    ensures Filled(f, w, h)[i] == f[Top(w) + Clamp(ColOf(Ext(w), i), BORDER, BORDER + w - 1)]
  {
    RowInPlane(Ext(w), BORDER, i);
    FilledAt(f, w, h, i);
  }

  /** Sample `c` of the first frame row of the filled plane. */
  lemma {:induction false} FirstRowAt(f: seq<int>, w: int, h: int, c: int)
    requires 1 <= w && 1 <= h && |f| == RowOffset(Ext(w), Ext(h)) && 0 <= c < Ext(w)
    requires |f| == Bottom(w, h) + Top(w) && Ext(w) <= RowOffset(Ext(w), h)
    ensures Filled(f, w, h)[Top(w) + c] == f[Top(w) + Clamp(c, BORDER, BORDER + w - 1)]
  {
    DivModIdx(Ext(w), BORDER, c);
    FilledAt(f, w, h, Top(w) + c);
  }

  /** The rows below the frame: sample `i - Bottom(w, h)` of BORDER copies
      of the last frame row of the filled plane is sample `i` of the filled
      plane. */
  lemma {:induction false} BelowFrameFilled(f: seq<int>, w: int, h: int, i: int)
    requires 1 <= w && 1 <= h && |f| == RowOffset(Ext(w), Ext(h))
    requires Ext(w) <= RowOffset(Ext(w), h) && |f| == Bottom(w, h) + Top(w)
    requires Bottom(w, h) <= i < |f|
    ensures Repeat(Filled(f, w, h)[Bottom(w, h) - Ext(w)..Bottom(w, h)], BORDER)[i - Bottom(w, h)] ==
      Filled(f, w, h)[i]
  {
    var g, c := Filled(f, w, h), ColOf(Ext(w), i - Bottom(w, h));
    var last := g[Bottom(w, h) - Ext(w)..Bottom(w, h)];
    assert Repeat(last, BORDER)[i - Bottom(w, h)] == last[c] == g[Bottom(w, h) - Ext(w) + c];
    BelowRowAt(f, w, h, i);
    LastRowAt(f, w, h, c);
  }

  /** A sample below the frame reads the last frame row. */
  lemma {:induction false} BelowRowAt(f: seq<int>, w: int, h: int, i: int)
    requires 1 <= w && 1 <= h && |f| == RowOffset(Ext(w), Ext(h))
    requires |f| == Bottom(w, h) + Top(w) && Bottom(w, h) <= i < |f|
    ensures 0 <= RowOffset(Ext(w), h - 1)
    ensures Filled(f, w, h)[i] ==
      f[Top(w) + RowOffset(Ext(w), h - 1) + Clamp(ColOf(Ext(w), i - Bottom(w, h)), BORDER, BORDER + w - 1)]
  {
    var we := Ext(w);
    var j := i - Bottom(w, h);
    var k, c := RowOf(we, j), ColOf(we, j);
    RowOffsetNonneg(we, h - 1);
    OffsetOfRowCol(we, j);
    RowBelowFrame(w, h, BORDER + h + k);
    NearestAt(w, h, BORDER + h + k, c);
    assert i == RowOffset(we, BORDER + h + k) + c;
    FilledAt(f, w, h, i);
  }

  /** Sample `c` of the last frame row of the filled plane. */
  lemma {:induction false} LastRowAt(f: seq<int>, w: int, h: int, c: int)
    requires 1 <= w && 1 <= h && |f| == RowOffset(Ext(w), Ext(h)) && 0 <= c < Ext(w)
    requires |f| == Bottom(w, h) + Top(w) && Ext(w) <= RowOffset(Ext(w), h)
    ensures 0 <= RowOffset(Ext(w), h - 1) && RowOffset(Ext(w), h - 1) + Ext(w) == RowOffset(Ext(w), h)
    ensures Filled(f, w, h)[Bottom(w, h) - Ext(w) + c] ==
      f[Top(w) + RowOffset(Ext(w), h - 1) + Clamp(c, BORDER, BORDER + w - 1)]
  {
    var we := Ext(w);
    RowOffsetNonneg(we, h - 1);
    FrameRowAt(w, BORDER + h - 1);
    NearestAt(w, h, BORDER + h - 1, c);
    assert Bottom(w, h) - we + c == RowOffset(we, BORDER + h - 1) + c;
    FilledAt(f, w, h, Bottom(w, h) - we + c);
  }

  /** Frame row `y`, column `c` of the filled plane. */
  lemma {:induction false} FrameRowSample(f: seq<int>, w: int, h: int, y: int, c: int)
    requires 1 <= w && 1 <= h && |f| == RowOffset(Ext(w), Ext(h)) && 0 <= y < h && 0 <= c < Ext(w)
    ensures 0 <= RowOffset(Ext(w), y) && Top(w) + RowOffset(Ext(w), y) + Ext(w) <= |f|
    ensures Filled(f, w, h)[Top(w) + RowOffset(Ext(w), y) + c] ==
      f[Top(w) + RowOffset(Ext(w), y) + Clamp(c, BORDER, BORDER + w - 1)]
  {
    var we := Ext(w);
    PlaneRows(w, h);
    RowWithin(we, y, h);
    FrameRowAt(w, y + BORDER);
    NearestAt(w, h, y + BORDER, c);
    FilledAt(f, w, h, Top(w) + RowOffset(we, y) + c);
  }

  /** Reading a filled plane at row `r` and column `c`, border included,
      reads the frame pixel nearest to that position: the row is clamped
      into the frame rows and the column into the frame columns. */
  lemma {:induction false} FilledSample(f: seq<int>, w: int, h: int, r: int, c: int)
    requires 1 <= w && 1 <= h && |f| == RowOffset(Ext(w), Ext(h))
    requires 0 <= r < Ext(h) && 0 <= c < Ext(w)
    ensures 0 <= RowOffset(Ext(w), r) && RowOffset(Ext(w), r) + c < |f|
    ensures 0 <= RowOffset(Ext(w), Clamp(r - BORDER, 0, h - 1))
    ensures Top(w) + RowOffset(Ext(w), Clamp(r - BORDER, 0, h - 1)) + Ext(w) <= |f|
    ensures Filled(f, w, h)[RowOffset(Ext(w), r) + c] ==
      f[Top(w) + RowOffset(Ext(w), Clamp(r - BORDER, 0, h - 1)) + Clamp(c, BORDER, BORDER + w - 1)]
  {
    var we := Ext(w);
    PlaneRows(w, h);
    RowWithin(we, r, Ext(h));
    RowWithin(we, Clamp(r - BORDER, 0, h - 1), h);
    NearestAt(w, h, r, c);
    FilledAt(f, w, h, RowOffset(we, r) + c);
  }

  /** Filling the borders leaves every frame pixel as it was. */
  lemma {:induction false} FilledKeepsFrame(f: seq<int>, w: int, h: int, x: int, y: int)
    requires 1 <= w && 1 <= h && |f| == RowOffset(Ext(w), Ext(h))
    requires 0 <= x < w && 0 <= y < h
    ensures 0 <= RowOffset(Ext(w), BORDER + y) && RowOffset(Ext(w), BORDER + y) + BORDER + x < |f|
    ensures Filled(f, w, h)[RowOffset(Ext(w), BORDER + y) + BORDER + x] == f[RowOffset(Ext(w), BORDER + y) + BORDER + x]
  {
    FilledSample(f, w, h, BORDER + y, BORDER + x);
    FrameRowAt(w, BORDER + y);
  }

  /** Filling the borders of a plane whose borders are already filled
      changes nothing. */
  lemma {:induction false} FilledIdempotent(f: seq<int>, w: int, h: int)
    requires 1 <= w && 1 <= h && |f| == RowOffset(Ext(w), Ext(h))
    ensures Filled(Filled(f, w, h), w, h) == Filled(f, w, h)
  {
    PlaneRows(w, h);
    var g := Filled(f, w, h);
    forall i | 0 <= i < |f|
      ensures Filled(g, w, h)[i] == g[i]
    {
      var n := Nearest(w, h, i);
      NearestIsFixed(w, h, i);
      assert Filled(g, w, h)[i] == g[n];
    }
  }

  /** The nearest frame pixel of a frame pixel is itself. */
  lemma {:induction false} NearestIsFixed(w: int, h: int, i: int)
    requires 1 <= w && 1 <= h && 0 <= i
    ensures Nearest(w, h, Nearest(w, h, i)) == Nearest(w, h, i)
  {
    var we := Ext(w);
    var k := Clamp(RowOf(we, i) - BORDER, 0, h - 1);
    var c := Clamp(ColOf(we, i), BORDER, BORDER + w - 1);
    FrameRowAt(w, k + BORDER);
    NearestAt(w, h, k + BORDER, c);
  }

  // ---------------------------------------------------------------------
  // Half-pixel reference planes

  /** In half-pixel mode, before the estimator runs, each plane of the
      previous frame gets three half-pixel shifted copies: every copy
      starts as `prev` copied whole, then the left copy is shifted along
      its rows, the up copy along its columns, and the up-left copy along
      its columns and then along its rows, always towards the lower index.
      The luma planes are padded bytes, the chroma planes 16-bit samples of
      the frame's size.  `scratchLeft` and `scratchUpLeft` are whatever the
      two row shifts' freshly allocated scratch planes happen to hold. */
  method BuildShiftedPlanes(prev: array<int>, up: array<int>, left: array<int>, upLeft: array<int>,
                            w: int, h: int, kind: SampleKind, scratchLeft: seq<int>, scratchUpLeft: seq<int>)
    requires 3 <= w && 3 <= h && prev.Length == w * h
    requires up.Length == w * h && left.Length == w * h && upLeft.Length == w * h
    requires |scratchLeft| == w * h && |scratchUpLeft| == w * h
    requires prev != up && prev != left && prev != upLeft && up != left && up != upLeft && left != upLeft
    modifies up, left, upLeft
    ensures up[..] == ShiftVert(kind, prev[..], w, false)
    ensures left[..] == ShiftHorz(kind, prev[..], w, h, false)
    ensures upLeft[..] == ShiftHorz(kind, ShiftVert(kind, prev[..], w, false), w, h, false)
  {
    MemCopy(up, 0, prev, 0, w * h);
    MemCopy(left, 0, prev, 0, w * h);
    MemCopy(upLeft, 0, prev, 0, w * h);
    assert up[..] == up[0..w * h] && left[..] == left[0..w * h] && upLeft[..] == upLeft[0..w * h];
    assert prev[..] == prev[0..w * h];
    ghost var p := prev[..];
    HalfpixelShiftHorz(left, w, h, false, kind, scratchLeft);
    LeftShiftAsWritten(kind, p, w, h, scratchLeft);
    HalfpixelShift(up, w, h, false, kind);
    HalfpixelShift(upLeft, w, h, false, kind);
    ghost var v := upLeft[..];
    HalfpixelShiftHorz(upLeft, w, h, false, kind, scratchUpLeft);
    LeftShiftAsWritten(kind, v, w, h, scratchUpLeft);
  }

  /** The shift along the rows towards the lower index is the same as
      written and as corrected: only the opposite direction goes wrong, so
      the planes above are those the filter builds. */
  lemma {:induction false} LeftShiftAsWritten(kind: SampleKind, f: seq<int>, w: int, h: int, junk: seq<int>)
    requires 3 <= w && |f| == w * h && |junk| == |f|
    ensures ShiftHorzAsWritten(kind, f, w, h, false, junk) == ShiftHorz(kind, f, w, h, false)
  {
    var a, b := ShiftHorzAsWritten(kind, f, w, h, false, junk), ShiftHorz(kind, f, w, h, false);
    forall n | 0 <= n < |f|
      ensures a[n] == b[n]
    {
    }
  }

  /** The reference planes the estimator is handed for a padded luma plane
      of `we` x `he` bytes: the previous frame under NONE and, in
      half-pixel mode, the three shifted copies under their shifts; the
      shifted copies are bytes again. */
  function LumaRefs(prev: seq<Byte>, we: int, he: int, useHalfPixel: bool): (m: map<ShiftDir, seq<Byte>>)
    requires 3 <= we && 3 <= he && |prev| == we * he
    ensures m.Keys == RefDirs(useHalfPixel) && m[NoShift] == prev
    ensures useHalfPixel ==>
      m[Up] == ShiftVert(U8, prev, we, false) && m[Left] == ShiftHorz(U8, prev, we, he, false) &&
      m[UpLeft] == ShiftHorz(U8, ShiftVert(U8, prev, we, false), we, he, false)
  {
    var v := ShiftVert(U8, prev, we, false);
    assert PlaneFits(U8, prev);
    ShiftsFit(U8, prev, we, he, false, false);
    ShiftsFit(U8, v, we, he, false, false);
    var up: seq<Byte> := v;
    var left: seq<Byte> := ShiftHorz(U8, prev, we, he, false);
    var upLeft: seq<Byte> := ShiftHorz(U8, v, we, he, false);
    PrevMapShape(prev, up, left, upLeft, useHalfPixel);
    PrevMap(prev, up, left, upLeft, useHalfPixel)
  }

  // ---------------------------------------------------------------------
  // Motion compensation of the luma plane

  /** Frame pixel (x, y) lies inside a padded plane. */
  lemma {:induction false} FrameSampleInPlane(w: int, h: int, x: int, y: int)
    requires 1 <= w && 1 <= h && 0 <= x < w && 0 <= y < h
    ensures 0 <= RowOffset(Ext(w), y)
    ensures Top(w) + RowOffset(Ext(w), y) + BORDER + x < RowOffset(Ext(w), Ext(h))
  {
    PlaneRows(w, h);
    RowWithin(Ext(w), y, h);
  }

  /** Frame pixel (x, y) of a padded plane of a `w` x `h` frame. */
  function FrameSample(plane: seq<int>, w: int, h: int, x: int, y: int): int
    requires 1 <= w && 1 <= h && |plane| == RowOffset(Ext(w), Ext(h))
    requires 0 <= x < w && 0 <= y < h
  {
    FrameSampleInPlane(w, h, x, y);
    plane[Top(w) + RowOffset(Ext(w), y) + BORDER + x]
  }

  /** The quadrant of its block that frame pixel (x, y) lies in: 0 top
      left, 1 top right, 2 bottom left, 3 bottom right. */
  function Quadrant(x: int, y: int): (h: int)
    ensures 0 <= h < 4
  {
    (if y % BLOCK_SIZE < BLOCK_SIZE / 2 then 0 else 2) + (if x % BLOCK_SIZE < BLOCK_SIZE / 2 then 0 else 1)
  }

  /** A coordinate is its block's start, the start of its half of the
      block, and its place in that half. */
  lemma {:induction false} CoordInQuadrant(v: int)
    requires 0 <= v
    ensures v == v / BLOCK_SIZE * BLOCK_SIZE + (if v % BLOCK_SIZE < BLOCK_SIZE / 2 then 0 else BLOCK_SIZE / 2)
                 + v % (BLOCK_SIZE / 2)
  {
  }

  lemma {:induction false} MulDistributes(a: int, b: int, c: int)
    ensures a * c + b * c == (a + b) * c
  {
  }

  /** The quadrant compensation picks for a pixel is the one the estimator
      searched it in: the pixel sits at row y % 8, column x % 8 of the
      8x8 window of quadrant `Quadrant(x, y)` of block (y / 16, x / 16). */
  lemma {:induction false} QuadrantIsSearched(e: MotionEstimator, x: int, y: int)
    requires 0 <= x && 0 <= y
    ensures e.QuadBase(y / BLOCK_SIZE, x / BLOCK_SIZE, Quadrant(x, y)) +
            (y % (BLOCK_SIZE / 2)) * e.widthExt + x % (BLOCK_SIZE / 2) ==
            e.firstRowOffset + y * e.widthExt + x
  {
    var h := Quadrant(x, y);
    CoordInQuadrant(x);
    CoordInQuadrant(y);
    var r := y / BLOCK_SIZE * BLOCK_SIZE + (if h > 1 then BLOCK_SIZE / 2 else 0);
    MulDistributes(r, y % (BLOCK_SIZE / 2), e.widthExt);
  }

  /** The four reference planes, indexed by shift. */
  datatype Planes = Planes(prev: seq<int>, up: seq<int>, left: seq<int>, upLeft: seq<int>)

  /** The plane `CompensateMotion` reads for a vector's shift. */
  function PlaneOf(p: Planes, dir: ShiftDir): seq<int>
  {
    match dir
    case NoShift => p.prev
    case Up => p.up
    case Left => p.left
    case UpLeft => p.upLeft
  }

  /** Every split vector carries four sub-vectors, as `Split` makes them. */
  predicate FourWaySplits(vectors: seq<Motion>)
  {
    forall k :: 0 <= k < |vectors| && vectors[k].subs.Some? ==> |vectors[k].subs.value| == 4
  }

  /** What compensation needs: four padded planes of a `w` x `h` frame and
      one vector per block. */
  predicate CompensationInputs(planes: Planes, vectors: seq<Motion>, w: int, h: int)
  {
    1 <= w && 1 <= h &&
    |planes.prev| == RowOffset(Ext(w), Ext(h)) && |planes.up| == RowOffset(Ext(w), Ext(h)) &&
    |planes.left| == RowOffset(Ext(w), Ext(h)) && |planes.upLeft| == RowOffset(Ext(w), Ext(h)) &&
    NumBlocks(h) * NumBlocks(w) <= |vectors| && FourWaySplits(vectors)
  }

  /** The slot of the block holding frame pixel (x, y) is one of the
      blocks'. */
  lemma {:induction false} SlotOfPixel(w: int, h: int, x: int, y: int)
    requires 0 <= x < w && 0 <= y < h
    ensures 0 <= x / BLOCK_SIZE < NumBlocks(w) && 0 <= y / BLOCK_SIZE < NumBlocks(h)
    ensures 0 <= y / BLOCK_SIZE * NumBlocks(w) + x / BLOCK_SIZE < NumBlocks(h) * NumBlocks(w)
  {
    NumBlocksIsCeiling(w);
    NumBlocksIsCeiling(h);
    MulNonneg(y / BLOCK_SIZE, NumBlocks(w));
    MulMono(y / BLOCK_SIZE + 1, NumBlocks(h), NumBlocks(w));
  }

  /** The vector in force at frame pixel (x, y): that of its block or, when
      the block is split, that of the pixel's quadrant. */
  function PixelMotion(vectors: seq<Motion>, w: int, h: int, x: int, y: int): Motion
    requires 0 <= x < w && 0 <= y < h
    requires NumBlocks(h) * NumBlocks(w) <= |vectors| && FourWaySplits(vectors)
  {
    SlotOfPixel(w, h, x, y);
    var v := vectors[y / BLOCK_SIZE * NumBlocks(w) + x / BLOCK_SIZE];
    if v.subs.Some? then v.subs.value[Quadrant(x, y)] else v
  }

  /** The compensated luma sample at frame pixel (x, y): in the plane its
      vector's shift names, the frame pixel the vector points at, moved
      back to the nearest pixel of the frame. */
  function Compensated(planes: Planes, vectors: seq<Motion>, w: int, h: int, x: int, y: int): int
    requires CompensationInputs(planes, vectors, w, h) && 0 <= x < w && 0 <= y < h
  {
    var m := PixelMotion(vectors, w, h, x, y);
    FrameSample(PlaneOf(planes, m.dir), w, h, Clamp(x + m.x, 0, w - 1), Clamp(y + m.y, 0, h - 1))
  }

  /** The compensated frame, row by row. */
  function CompensatedFrame(planes: Planes, vectors: seq<Motion>, w: int, h: int): (c: seq<int>)
    requires CompensationInputs(planes, vectors, w, h)
    ensures |c| == w * h
  {
    RowsInPlane(w, h);
    MulNonneg(w, h);
    seq(w * h, k requires 0 <= k < w * h => Compensated(planes, vectors, w, h, ColOf(w, k), RowOf(w, k)))
  }

  /** Sample (x, y) of the compensated frame. */
  lemma {:induction false} CompensatedFrameAt(planes: Planes, vectors: seq<Motion>, w: int, h: int, x: int, y: int)
    requires CompensationInputs(planes, vectors, w, h) && 0 <= x < w && 0 <= y < h
    ensures 0 <= RowOffset(w, y) + x < w * h
    ensures CompensatedFrame(planes, vectors, w, h)[RowOffset(w, y) + x] == Compensated(planes, vectors, w, h, x, y)
  {
    var k := RowOffset(w, y) + x;
    OffsetDecodes(w, y, x);
    RowWithin(w, y, h);
    RowOffsetIsProduct(w, h);
    assert ColOf(w, k) == x && RowOf(w, k) == y;
    var c := CompensatedFrame(planes, vectors, w, h);
    assert c[k] == Compensated(planes, vectors, w, h, ColOf(w, k), RowOf(w, k));
  }

  /** `sh_x` and `sh_y`: the displacement `d` from position `p`, cut short
      where it would leave positions 0 .. n - 1. */
  function ClampShift(p: int, d: int, n: int): (s: int)
    ensures 0 <= p < n ==> p + s == Clamp(p + d, 0, n - 1)
    ensures 0 <= p + d < n ==> s == d
  {
    if p + d < 0 then -p else if p + d >= n then n - 1 - p else d
  }

  /** One step of `CompensateMotion` on the luma plane: the block's vector,
      its quadrant's sub-vector when split, the plane of its shift, and
      the sample at the cut-short displacement from the pixel's place in
      the padded plane. */
  method CompensatePixel(planes: Planes, vectors: seq<Motion>, w: int, h: int, x: int, y: int) returns (v: int)
    requires CompensationInputs(planes, vectors, w, h) && 0 <= x < w && 0 <= y < h
    ensures v == Compensated(planes, vectors, w, h, x, y)
  {
    var i := y / BLOCK_SIZE;
    var j := x / BLOCK_SIZE;
    SlotOfPixel(w, h, x, y);
    var mv := vectors[i * NumBlocks(w) + j];
    if mv.subs.Some? {
      mv := mv.subs.value[Quadrant(x, y)];
    }
    assert mv == PixelMotion(vectors, w, h, x, y);
    var plane := PlaneOf(planes, mv.dir);
    var we := Ext(w);
    var shX := ClampShift(x, mv.x, w);
    var shY := ClampShift(y, mv.y, h);
    var at := we * BORDER + BORDER + y * we + x;
    DisplacedIndex(w, h, x, y, shX, shY);
    v := plane[at + shY * we + shX];
  }

  /** Where the address arithmetic of the C++ lands: the pixel's place in the
      padded plane moved by `shY` rows and `shX` columns is the frame pixel
      (x + shX, y + shY). */
  lemma {:induction false} DisplacedIndex(w: int, h: int, x: int, y: int, shX: int, shY: int)
    requires 1 <= w && 1 <= h && 0 <= x + shX < w && 0 <= y + shY < h
    ensures 0 <= RowOffset(Ext(w), y + shY)
    ensures Ext(w) * BORDER + BORDER + y * Ext(w) + x + shY * Ext(w) + shX ==
            Top(w) + RowOffset(Ext(w), y + shY) + BORDER + x + shX
    ensures Top(w) + RowOffset(Ext(w), y + shY) + BORDER + x + shX < RowOffset(Ext(w), Ext(h))
  {
    RowOffsetIsProduct(Ext(w), y + shY);
    MulDistributes(y, shY, Ext(w));
    FrameSampleInPlane(w, h, x + shX, y + shY);
  }

  /** `CompensateMotion` for the luma plane: every pixel of the frame-sized
      output `mc` gets its compensated sample, row by row. */
  method CompensateMotion(mc: array<int>, planes: Planes, vectors: seq<Motion>, w: int, h: int)
    requires CompensationInputs(planes, vectors, w, h) && mc.Length == w * h
    modifies mc
    ensures mc[..] == CompensatedFrame(planes, vectors, w, h)
  {
    ghost var want := CompensatedFrame(planes, vectors, w, h);
    RowOffsetIsProduct(w, h);
    RowOffsetNonneg(w, h);
    var p := 0;
    var y := 0;
    while y < h
      invariant 0 <= y <= h && p == RowOffset(w, y) && p <= RowOffset(w, h)
      invariant forall k :: 0 <= k < p ==> mc[k] == want[k]
    {
      RowWithin(w, y, h);
      var x := 0;
      while x < w
        invariant 0 <= x <= w && p == RowOffset(w, y) + x
        invariant forall k :: 0 <= k < p ==> mc[k] == want[k]
      {
        CompensatedFrameAt(planes, vectors, w, h, x, y);
        CompensateStep(mc, planes, vectors, w, h, x, y, p);
        p := p + 1;
        x := x + 1;
      }
      y := y + 1;
    }
    assert mc[..] == want;
  }

  /** The body of the inner loop of `CompensateMotion`: pixel (x, y), at
      `p`, gets its compensated sample. */
  method CompensateStep(mc: array<int>, planes: Planes, vectors: seq<Motion>, w: int, h: int, x: int, y: int, p: int)
    requires CompensationInputs(planes, vectors, w, h) && mc.Length == w * h
    requires 0 <= x < w && 0 <= y < h && p == RowOffset(w, y) + x && 0 <= p < mc.Length
    requires forall k :: 0 <= k < p ==> mc[k] == CompensatedFrame(planes, vectors, w, h)[k]
    modifies mc
    ensures forall k :: 0 <= k <= p ==> mc[k] == CompensatedFrame(planes, vectors, w, h)[k]
  {
    var v := CompensatePixel(planes, vectors, w, h, x, y);
    CompensatedFrameAt(planes, vectors, w, h, x, y);
    mc[p] := v;
  }

  /** In a plane whose border `FillBorders` has filled, reading the pixel a
      vector of at most BORDER in each direction points at, moved back into
      the frame, gives the same sample as reading the padded plane where
      the vector points: cutting the displacement short is what the border
      does. */
  lemma {:induction false} ClampedReadIsPaddedRead(f: seq<int>, w: int, h: int, x: int, y: int, dx: int, dy: int)
    requires 1 <= w && 1 <= h && |f| == RowOffset(Ext(w), Ext(h))
    requires 0 <= x < w && 0 <= y < h && -BORDER <= dx <= BORDER && -BORDER <= dy <= BORDER
    ensures 0 <= RowOffset(Ext(w), BORDER + y + dy) && RowOffset(Ext(w), BORDER + y + dy) + BORDER + x + dx < |f|
    ensures FrameSample(Filled(f, w, h), w, h, Clamp(x + dx, 0, w - 1), Clamp(y + dy, 0, h - 1)) ==
            Filled(f, w, h)[RowOffset(Ext(w), BORDER + y + dy) + BORDER + x + dx]
  {
    var tx, ty := Clamp(x + dx, 0, w - 1), Clamp(y + dy, 0, h - 1);
    FilledFrameSample(f, w, h, tx, ty);
    FilledSample(f, w, h, BORDER + y + dy, BORDER + x + dx);
    assert Clamp(BORDER + x + dx, BORDER, BORDER + w - 1) == BORDER + tx;
    assert Clamp(BORDER + y + dy - BORDER, 0, h - 1) == ty;
  }

  /** Frame pixel (x, y) of a filled plane is the plane's own frame pixel. */
  lemma {:induction false} FilledFrameSample(f: seq<int>, w: int, h: int, x: int, y: int)
    requires 1 <= w && 1 <= h && |f| == RowOffset(Ext(w), Ext(h))
    requires 0 <= x < w && 0 <= y < h
    ensures 0 <= RowOffset(Ext(w), y) && Top(w) + RowOffset(Ext(w), y) + BORDER + x < |f|
    ensures FrameSample(Filled(f, w, h), w, h, x, y) == f[Top(w) + RowOffset(Ext(w), y) + BORDER + x]
  {
    FrameSampleInPlane(w, h, x, y);
    FrameRowAt(w, BORDER + y);
    FilledKeepsFrame(f, w, h, x, y);
  }

  /** Compensating from the previous frame, with a vector the estimator can
      produce, reads the padded plane exactly where the vector points. */
  lemma {:induction false} CompensatedFromPadding(f: seq<int>, planes: Planes, vectors: seq<Motion>,
                                                   w: int, h: int, x: int, y: int)
    requires CompensationInputs(planes, vectors, w, h) && 0 <= x < w && 0 <= y < h
    requires |f| == RowOffset(Ext(w), Ext(h)) && planes.prev == Filled(f, w, h)
    requires PixelMotion(vectors, w, h, x, y).dir == NoShift
    requires -BORDER <= PixelMotion(vectors, w, h, x, y).x <= BORDER
    requires -BORDER <= PixelMotion(vectors, w, h, x, y).y <= BORDER
    ensures var m := PixelMotion(vectors, w, h, x, y);
      0 <= RowOffset(Ext(w), BORDER + y + m.y) && RowOffset(Ext(w), BORDER + y + m.y) + BORDER + x + m.x < |f| &&
      Compensated(planes, vectors, w, h, x, y) == planes.prev[RowOffset(Ext(w), BORDER + y + m.y) + BORDER + x + m.x]
  {
    var m := PixelMotion(vectors, w, h, x, y);
    ClampedReadIsPaddedRead(f, w, h, x, y, m.x, m.y);
  }

  // ---------------------------------------------------------------------
  // Luma residual

  /** The luma residual of a compensated sample against the current one:
      three times their difference, centred on 128 and clamped to a byte. */
  function Residual(mc: int, cur: int): (r: int)
    ensures 0 <= r <= 255
    ensures r == 128 <==> mc == cur
    ensures -42 <= mc - cur <= 42 ==> r == 128 + 3 * (mc - cur)
  {
    Clamp(128 + (mc - cur) * 3, 0, 255)
  }

  /** A larger compensated sample never gives a smaller residual. */
  lemma {:induction false} ResidualMonotone(mc1: int, mc2: int, cur: int)
    requires mc1 <= mc2
    ensures Residual(mc1, cur) <= Residual(mc2, cur)
  {
    ClampMonotone(128 + (mc1 - cur) * 3, 128 + (mc2 - cur) * 3, 0, 255);
  }

  /** The residual frame: each compensated sample against the current
      frame's pixel at the same place. */
  function ResidualFrame(mc: seq<int>, cur: seq<int>, w: int, h: int): (r: seq<int>)
    requires 1 <= w && 1 <= h && |mc| == w * h && |cur| == RowOffset(Ext(w), Ext(h))
    ensures |r| == |mc|
  {
    RowsInPlane(w, h);
    seq(|mc|, k requires 0 <= k < |mc| => Residual(mc[k], FrameSample(cur, w, h, ColOf(w, k), RowOf(w, k))))
  }

  /** Sample (x, y) of the residual frame. */
  lemma {:induction false} ResidualFrameAt(mc: seq<int>, cur: seq<int>, w: int, h: int, x: int, y: int)
    requires 1 <= w && 1 <= h && |mc| == w * h && |cur| == RowOffset(Ext(w), Ext(h))
    requires 0 <= x < w && 0 <= y < h
    ensures 0 <= RowOffset(w, y) + x < |mc|
    ensures 0 <= Top(w) + RowOffset(Ext(w), y) + BORDER + x < |cur|
    ensures ResidualFrame(mc, cur, w, h)[RowOffset(w, y) + x] ==
            Residual(mc[RowOffset(w, y) + x], cur[Top(w) + RowOffset(Ext(w), y) + BORDER + x])
  {
    OffsetDecodes(w, y, x);
    RowWithin(w, y, h);
    RowOffsetIsProduct(w, h);
    FrameSampleInPlane(w, h, x, y);
  }

  /** The residual loop of `DrawOutput` for the luma plane: the output
      cursor walks the frame-sized buffer, the current-frame cursor the
      frame pixels of the padded plane, skipping the border at the end of
      each row. */
  method ResidualLuma(mc: array<int>, cur: seq<int>, w: int, h: int)
    requires 1 <= w && 1 <= h && mc.Length == w * h && |cur| == RowOffset(Ext(w), Ext(h))
    modifies mc
    ensures mc[..] == ResidualFrame(old(mc[..]), cur, w, h)
  {
    ghost var m0 := mc[..];
    ghost var want := ResidualFrame(m0, cur, w, h);
    RowOffsetIsProduct(w, h);
    RowOffsetNonneg(w, h);
    var p := 0;
    var q := Ext(w) * BORDER + BORDER;
    var y := 0;
    while y < h
      invariant 0 <= y <= h && p == RowOffset(w, y) && p <= RowOffset(w, h)
      invariant q == Top(w) + RowOffset(Ext(w), y) + BORDER
      invariant forall k :: 0 <= k < p ==> mc[k] == want[k]
      invariant forall k :: p <= k < mc.Length ==> mc[k] == m0[k]
    {
      RowWithin(w, y, h);
      var x := 0;
      while x < w
        invariant 0 <= x <= w && p == RowOffset(w, y) + x && q == Top(w) + RowOffset(Ext(w), y) + BORDER + x
        invariant forall k :: 0 <= k < p ==> mc[k] == want[k]
        invariant forall k :: p <= k < mc.Length ==> mc[k] == m0[k]
      {
        ResidualStep(mc, cur, w, h, x, y, p, q, m0);
        p, q := p + 1, q + 1;
        x := x + 1;
      }
      q := q + 2 * BORDER;
      y := y + 1;
    }
    assert mc[..] == want;
  }

  /** One turn of the residual loop: the output sample under the output cursor
      becomes its residual against the current-frame sample under the
      current-frame cursor. */
  method ResidualStep(mc: array<int>, cur: seq<int>, w: int, h: int, x: int, y: int, p: int, q: int,
                      ghost m0: seq<int>)
    requires 1 <= w && 1 <= h && mc.Length == w * h && |cur| == RowOffset(Ext(w), Ext(h)) && |m0| == mc.Length
    requires 0 <= x < w && 0 <= y < h && p == RowOffset(w, y) + x && q == Top(w) + RowOffset(Ext(w), y) + BORDER + x
    requires 0 <= p < mc.Length
    requires forall k :: 0 <= k < p ==> mc[k] == ResidualFrame(m0, cur, w, h)[k]
    requires forall k :: p <= k < mc.Length ==> mc[k] == m0[k]
    modifies mc
    ensures forall k :: 0 <= k <= p ==> mc[k] == ResidualFrame(m0, cur, w, h)[k]
    ensures forall k :: p < k < mc.Length ==> mc[k] == m0[k]
  {
    ResidualFrameAt(m0, cur, w, h, x, y);
    mc[p] := Residual(mc[p], cur[q]);
  }
}
