/** Resizing a two-dimensional array with linear interpolation in fixed point: positions
    carry eight fraction bits and the sums are 32-bit unsigned.  The result is proved to be
    the exact bilinear interpolation at the sampled position, rounded to nearest.
  */
module Resize {
  import opened Basics

  const FRAC := 256
  const ROUNDING := 32768
  const VALUE_MAX := 0xffff

  /** Above this many cells per side, shifting the last index by the fraction bits overflows `int`. */
  const SIDE_MAX := 0x80_0000

  // ------------------------------------------------------------ reference

  function Idx(w: nat, row: nat, col: nat): nat {
    row * w + col
  }

  lemma {:induction false} IdxInBounds(w: nat, h: nat, row: nat, col: nat)
    requires row < h && col < w
    ensures Idx(w, row, col) < w * h
  {
    assert (row + 1) * w <= h * w;
  }

  /** Rows do not overlap. */
  lemma {:induction false} IdxOrdered(w: nat, row: nat, col: nat, row': nat, col': nat)
    requires col < w && col' < w
    ensures row < row' ==> Idx(w, row, col) < Idx(w, row', col')
  {
    if row < row' {
      assert (row + 1) * w <= row' * w;
    }
  }

  /** 256 times the value a fraction `t` of the way from `a` to `b`. */
  function Lerp(a: int, b: int, t: int): int {
    a * (FRAC - t) + b * t
  }

  datatype Image = Image(cells: seq<int>, w: nat, h: nat)

  ghost predicate WellFormed(im: Image) {
    && 2 <= im.w <= SIDE_MAX && 2 <= im.h <= SIDE_MAX
    && |im.cells| == im.w * im.h <= INT32_MAX
    && forall k :: 0 <= k < |im.cells| ==> 0 <= im.cells[k] <= VALUE_MAX
  }

  ghost function Cell(im: Image, row: nat, col: nat): (v: int)
    requires WellFormed(im) && row < im.h && col < im.w
    ensures 0 <= row * im.w + col < |im.cells| && v == im.cells[row * im.w + col]
  {
    IdxInBounds(im.w, im.h, row, col);
    im.cells[Idx(im.w, row, col)]
  }

  function Following(k: nat, n: nat): nat {
    if k + 1 < n then k + 1 else k
  }

  /** 256 times the interpolation within one row. */
  ghost function RowAt(im: Image, row: nat, x: nat): int
    requires WellFormed(im) && row < im.h && x <= (im.w - 1) * FRAC
  {
    Lerp(Cell(im, row, x / FRAC), Cell(im, row, Following(x / FRAC, im.w)), x % FRAC)
  }

  /** 65536 times the bilinear interpolation of the image at position `(x, y)`, in 256ths of a cell. */
  ghost function Bilinear(im: Image, x: nat, y: nat): int
    requires WellFormed(im) && x <= (im.w - 1) * FRAC && y <= (im.h - 1) * FRAC
  {
    Lerp(RowAt(im, y / FRAC, x), RowAt(im, Following(y / FRAC, im.h), x), y % FRAC)
  }

  /** Rounds 65536ths to the nearest integer. */
  function Rounded(v: int): int {
    (v + ROUNDING) / (FRAC * FRAC)
  }

  // -------------------------------------------------------- sample positions

  function StepSize(src: nat, dst: nat): nat
    requires 2 <= src && 2 <= dst
  {
    (src - 1) * FRAC / (dst - 1)
  }

  lemma {:induction false} QuotientBelow(total: nat, d: nat)
    requires 0 < d
    ensures d * (total / d) <= total
  {
    assert total == d * (total / d) + total % d;
  }

  lemma {:induction false} FewerSteps(i: nat, n: nat, step: nat)
    requires i <= n
    ensures 0 <= i * step <= n * step
  {
    assert n * step - i * step == (n - i) * step;
  }

  lemma {:induction false} SampleInRange(src: nat, dst: nat, i: nat)
    requires 2 <= src && 2 <= dst && i < dst
    ensures 0 <= i * StepSize(src, dst) <= (src - 1) * FRAC
  {
    FewerSteps(i, dst - 1, StepSize(src, dst));
    QuotientBelow((src - 1) * FRAC, dst - 1);
  }

  /** The last sample falls short of the last cell by fewer 256ths than there are steps. */
  lemma {:induction false} LastSampleShortfall(src: nat, dst: nat)
    requires 2 <= src && 2 <= dst
    ensures 0 <= (src - 1) * FRAC - (dst - 1) * StepSize(src, dst) < dst - 1
  {
    var total := (src - 1) * FRAC;
    assert total == (dst - 1) * (total / (dst - 1)) + total % (dst - 1);
  }

  /** The cell to the left of a position, which for a position on a cell is the one before it. */
  function Lower(loc: nat): nat {
    if loc > 0 then (loc - 1) / FRAC else 0
  }

  /** Both neighbours exist, and the weights of the two are non-negative and add up to 256. */
  lemma {:induction false} LowerInRange(loc: nat, n: nat)
    requires 2 <= n && loc <= (n - 1) * FRAC
    ensures Lower(loc) + 1 < n
    ensures 0 <= (Lower(loc) + 1) * FRAC - loc <= FRAC
    ensures 0 <= loc - Lower(loc) * FRAC <= FRAC
    ensures ((Lower(loc) + 1) * FRAC - loc) + (loc - Lower(loc) * FRAC) == FRAC
  {
  }

  // ------------------------------------------------------------- arithmetic

  function Weighted(a: int, b: int, c: int, d: int, left: int, right: int, up: int, down: int): int {
    a * left * up + b * right * up + c * left * down + d * right * down
  }

  lemma {:induction false} MixBounds(a: int, b: int, u: int, v: int, lo: int, hi: int)
    requires lo <= a <= hi && lo <= b <= hi && 0 <= u && 0 <= v
    ensures lo * (u + v) <= a * u + b * v <= hi * (u + v)
  {
    assert lo * u <= a * u && lo * v <= b * v;
    assert a * u <= hi * u && b * v <= hi * v;
    assert lo * (u + v) == lo * u + lo * v && hi * (u + v) == hi * u + hi * v;
  }

  lemma {:induction false} WeightedIsTwoMixes(
    a: int, b: int, c: int, d: int, left: int, right: int, up: int, down: int, upper: int, lower: int)
    requires upper == a * left + b * right && lower == c * left + d * right
    ensures Weighted(a, b, c, d, left, right, up, down) == upper * up + lower * down
  {
    assert upper * up == a * left * up + b * right * up;
    assert lower * down == c * left * down + d * right * down;
  }

  /** A convex combination lies between its smallest and its largest operand. */
  lemma {:induction false} WeightedBounds(
    a: int, b: int, c: int, d: int, left: int, right: int, up: int, down: int, lo: int, hi: int)
    requires lo <= a <= hi && lo <= b <= hi && lo <= c <= hi && lo <= d <= hi
    requires 0 <= left && 0 <= right && left + right == FRAC && 0 <= up && 0 <= down && up + down == FRAC
    ensures lo * 65536 <= Weighted(a, b, c, d, left, right, up, down) <= hi * 65536
  {
    MixBounds(a, b, left, right, lo, hi);
    MixBounds(c, d, left, right, lo, hi);
    var upper, lower := a * left + b * right, c * left + d * right;
    MixBounds(upper, lower, up, down, lo * FRAC, hi * FRAC);
    WeightedIsTwoMixes(a, b, c, d, left, right, up, down, upper, lower);
  }

  /** The mix with the left neighbour's weights is the interpolation in the cell itself, also for
      a position that falls on a cell and therefore uses the interval before it. */
  lemma {:induction false} LowerMix(loc: nat, left: int, right: int, cell: int, next: int)
    requires Lower(loc) == loc / FRAC ==> left == cell && right == next
    requires Lower(loc) + 1 == loc / FRAC ==> right == cell
    ensures left * ((Lower(loc) + 1) * FRAC - loc) + right * (loc - Lower(loc) * FRAC) == Lerp(cell, next, loc % FRAC)
  {
    if loc > 0 && loc % FRAC == 0 {
      assert Lower(loc) + 1 == loc / FRAC;
    } else {
      assert Lower(loc) == loc / FRAC;
    }
  }

  ghost function SampledSum(im: Image, x: nat, y: nat): int
    requires WellFormed(im) && x <= (im.w - 1) * FRAC && y <= (im.h - 1) * FRAC
  {
    LowerInRange(x, im.w);
    LowerInRange(y, im.h);
    var col, row := Lower(x), Lower(y);
    Weighted(Cell(im, row, col), Cell(im, row, col + 1), Cell(im, row + 1, col), Cell(im, row + 1, col + 1),
             (col + 1) * FRAC - x, x - col * FRAC, (row + 1) * FRAC - y, y - row * FRAC)
  }

  lemma {:induction false} RowMix(im: Image, row: nat, x: nat)
    requires WellFormed(im) && row < im.h && x <= (im.w - 1) * FRAC
    ensures Lower(x) + 1 < im.w
    ensures Cell(im, row, Lower(x)) * ((Lower(x) + 1) * FRAC - x) + Cell(im, row, Lower(x) + 1) * (x - Lower(x) * FRAC) ==
            RowAt(im, row, x)
  {
    LowerInRange(x, im.w);
    LowerMix(x, Cell(im, row, Lower(x)), Cell(im, row, Lower(x) + 1),
             Cell(im, row, x / FRAC), Cell(im, row, Following(x / FRAC, im.w)));
  }

  /** The four-term sum mixes the interpolations within the two rows around the position. */
  lemma {:induction false} SampledSumMixesRows(im: Image, x: nat, y: nat)
    requires WellFormed(im) && x <= (im.w - 1) * FRAC && y <= (im.h - 1) * FRAC
    ensures Lower(y) + 1 < im.h
    ensures SampledSum(im, x, y) ==
            RowAt(im, Lower(y), x) * ((Lower(y) + 1) * FRAC - y) + RowAt(im, Lower(y) + 1, x) * (y - Lower(y) * FRAC)
  {
    LowerInRange(x, im.w);
    LowerInRange(y, im.h);
    var col, row := Lower(x), Lower(y);
    var upper, lower := RowAt(im, row, x), RowAt(im, row + 1, x);
    RowMix(im, row, x);
    RowMix(im, row + 1, x);
    WeightedIsTwoMixes(Cell(im, row, col), Cell(im, row, col + 1), Cell(im, row + 1, col), Cell(im, row + 1, col + 1),
                       (col + 1) * FRAC - x, x - col * FRAC, (row + 1) * FRAC - y, y - row * FRAC, upper, lower);
  }

  /** The four-term sum is the exact bilinear interpolation. */
  lemma {:induction false} SampledSumIsBilinear(im: Image, x: nat, y: nat)
    requires WellFormed(im) && x <= (im.w - 1) * FRAC && y <= (im.h - 1) * FRAC
    ensures SampledSum(im, x, y) == Bilinear(im, x, y)
  {
    SampledSumMixesRows(im, x, y);
    LowerMix(y, RowAt(im, Lower(y), x), RowAt(im, Lower(y) + 1, x),
             RowAt(im, y / FRAC, x), RowAt(im, Following(y / FRAC, im.h), x));
  }

  /** Adding up the four terms and the rounding term in 32 bits: no partial sum overflows. */
  method RoundedSum(p: nat, q: nat, r: nat, s: nat) returns (v: int)
    requires p + q + r + s <= VALUE_MAX * (FRAC * FRAC)
    ensures v == Rounded(p + q + r + s) && 0 <= v <= VALUE_MAX
  {
    var sum := ToUint32(p + q);
    sum := ToUint32(sum + r);
    sum := ToUint32(sum + s);
    sum := ToUint32(sum + ROUNDING);
    v := (sum / (FRAC * FRAC)) % (VALUE_MAX + 1);
  }

  /** The 32-bit computation of one output cell: no product and no partial sum overflows. */
  method Interpolate(a: int, b: int, c: int, d: int, left: int, right: int, up: int, down: int) returns (v: int)
    requires 0 <= a <= VALUE_MAX && 0 <= b <= VALUE_MAX && 0 <= c <= VALUE_MAX && 0 <= d <= VALUE_MAX
    requires 0 <= left && 0 <= right && left + right == FRAC && 0 <= up && 0 <= down && up + down == FRAC
    ensures v == Rounded(Weighted(a, b, c, d, left, right, up, down))
    ensures 0 <= v <= VALUE_MAX
  {
    var upperLeft := Term(a, left, up);
    var upperRight := Term(b, right, up);
    var lowerLeft := Term(c, left, down);
    var lowerRight := Term(d, right, down);
    WeightedBounds(a, b, c, d, left, right, up, down, 0, VALUE_MAX);
    v := RoundedSum(upperLeft, upperRight, lowerLeft, lowerRight);
  }

  /** One weighted cell, multiplied out in 32 bits. */
  method Term(a: int, u: int, v: int) returns (t: int)
    requires 0 <= a <= VALUE_MAX && 0 <= u <= FRAC && 0 <= v <= FRAC
    ensures t == a * u * v && 0 <= t
  {
    TermBound(a, u, v);
    t := ToUint32(ToUint32(a * u) * v);
  }

  lemma {:induction false} ProductBound(x: int, y: int, hi: int, top: int)
    requires 0 <= x <= hi && 0 <= y <= top
    ensures 0 <= x * y <= hi * top
  {
    assert x * y <= hi * y;
    assert hi * y <= hi * top;
  }

  lemma {:induction false} TermBound(a: int, u: int, v: int)
    requires 0 <= a <= VALUE_MAX && 0 <= u <= FRAC && 0 <= v <= FRAC
    ensures 0 <= a * u <= VALUE_MAX * FRAC && 0 <= a * u * v <= VALUE_MAX * FRAC * FRAC
  {
    ProductBound(a, u, VALUE_MAX, FRAC);
    ProductBound(a * u, v, VALUE_MAX * FRAC, FRAC);
  }

  // ---------------------------------------------------------------- the loops

  /** What the output holds at `(row, col)`. */
  ghost function Resized(im: Image, dstW: nat, dstH: nat, row: nat, col: nat): int
    requires WellFormed(im) && 2 <= dstW && 2 <= dstH && row < dstH && col < dstW
  {
    SampleInRange(im.w, dstW, col);
    SampleInRange(im.h, dstH, row);
    Rounded(Bilinear(im, col * StepSize(im.w, dstW), row * StepSize(im.h, dstH)))
  }

  method ReadCell(src: array<int>, srcW: nat, srcH: nat, row: nat, col: nat) returns (v: int)
    requires WellFormed(Image(src[..], srcW, srcH)) && row < srcH && col < srcW
    ensures v == Cell(Image(src[..], srcW, srcH), row, col) && 0 <= v <= VALUE_MAX
  {
    IdxInBounds(srcW, srcH, row, col);
    v := src[..][col + row * srcW];
  }

  /** Mixes the four cells around a position with their weights. */
  method MixCorners(ghost im: Image, x: nat, y: nat, col: nat, row: nat, a: int, b: int, c: int, d: int) returns (v: int)
    requires WellFormed(im) && x <= (im.w - 1) * FRAC && y <= (im.h - 1) * FRAC
    requires col == Lower(x) && row == Lower(y) && col + 1 < im.w && row + 1 < im.h
    requires a == Cell(im, row, col) && b == Cell(im, row, col + 1)
    requires c == Cell(im, row + 1, col) && d == Cell(im, row + 1, col + 1)
    requires 0 <= a <= VALUE_MAX && 0 <= b <= VALUE_MAX && 0 <= c <= VALUE_MAX && 0 <= d <= VALUE_MAX
    ensures v == Rounded(Bilinear(im, x, y))
  {
    LowerInRange(x, im.w);
    LowerInRange(y, im.h);
    v := Interpolate(a, b, c, d, (col + 1) * FRAC - x, x - col * FRAC, (row + 1) * FRAC - y, y - row * FRAC);
    SampledSumIsBilinear(im, x, y);
  }

  /** Reads the four neighbours of a position and mixes them. */
  method Sample(src: array<int>, srcW: nat, srcH: nat, x: nat, y: nat) returns (v: int)
    requires WellFormed(Image(src[..], srcW, srcH))
    requires x <= (srcW - 1) * FRAC && y <= (srcH - 1) * FRAC
    ensures v == Rounded(Bilinear(Image(src[..], srcW, srcH), x, y))
  {
    ghost var im := Image(src[..], srcW, srcH);
    var row := if y > 0 then (y - 1) / FRAC else 0;
    var col := if x > 0 then (x - 1) / FRAC else 0;
    LowerInRange(x, srcW);
    LowerInRange(y, srcH);
    var a := ReadCell(src, srcW, srcH, row, col);
    var b := ReadCell(src, srcW, srcH, row, col + 1);
    var c := ReadCell(src, srcW, srcH, row + 1, col);
    var d := ReadCell(src, srcW, srcH, row + 1, col + 1);
    v := MixCorners(im, x, y, col, row, a, b, c, d);
  }

  method Resize2dArray(src: array<int>, srcW: int, srcH: int, dst: array<int>, dstW: int, dstH: int) returns (ret: int)
    requires src != dst
    requires 2 <= srcW && 2 <= srcH && 2 <= dstW && 2 <= dstH ==>
               WellFormed(Image(src[..], srcW, srcH)) && dst.Length == dstW * dstH <= INT32_MAX
    modifies dst
    ensures ret == if srcW < 2 || dstW < 2 || srcH < 2 || dstH < 2 then -1 else 0
    ensures ret == -1 ==> dst[..] == old(dst[..])
    ensures ret == 0 ==> forall row, col :: 0 <= row < dstH && 0 <= col < dstW ==>
              0 <= Idx(dstW, row, col) < dst.Length &&
              dst[Idx(dstW, row, col)] == Resized(Image(src[..], srcW, srcH), dstW, dstH, row, col)
  {
    if srcW < 2 || dstW < 2 || srcH < 2 || dstH < 2 {
      return -1;
    }
    ghost var im := Image(src[..], srcW, srcH);
    var stepW, stepH := (srcW - 1) * FRAC / (dstW - 1), (srcH - 1) * FRAC / (dstH - 1);
    for j := 0 to dstH
      invariant src[..] == im.cells
      invariant forall row, col :: 0 <= row < j && 0 <= col < dstW ==>
                  0 <= Idx(dstW, row, col) < dst.Length && dst[Idx(dstW, row, col)] == Resized(im, dstW, dstH, row, col)
    {
      SampleInRange(srcH, dstH, j);
      ResizeRow(src, srcW, srcH, dst, dstW, dstH, j, stepW, j * stepH);
    }
    return 0;
  }

  /** The inner loop: fills row `j` and leaves the rows before it alone. */
  method ResizeRow(src: array<int>, srcW: nat, srcH: nat, dst: array<int>, dstW: nat, dstH: nat, j: nat, stepW: nat, y: nat)
    requires src != dst && WellFormed(Image(src[..], srcW, srcH))
    requires 2 <= dstW && 2 <= dstH && dst.Length == dstW * dstH && j < dstH
    requires stepW == StepSize(srcW, dstW) && y == j * StepSize(srcH, dstH) <= (srcH - 1) * FRAC
    modifies dst
    ensures forall row, col :: 0 <= row <= j && 0 <= col < dstW ==> 0 <= Idx(dstW, row, col) < dst.Length
    ensures forall row, col :: 0 <= row < j && 0 <= col < dstW ==>
              dst[Idx(dstW, row, col)] == old(dst[Idx(dstW, row, col)])
    ensures forall col :: 0 <= col < dstW ==>
              dst[Idx(dstW, j, col)] == Resized(Image(src[..], srcW, srcH), dstW, dstH, j, col)
  {
    ghost var im := Image(src[..], srcW, srcH);
    forall row, col | 0 <= row <= j && 0 <= col < dstW
      ensures 0 <= Idx(dstW, row, col) < dst.Length
    {
      IdxInBounds(dstW, dstH, row, col);
    }
    for i := 0 to dstW
      invariant src[..] == im.cells
      invariant forall row, col :: 0 <= row < j && 0 <= col < dstW ==>
                  dst[Idx(dstW, row, col)] == old(dst[Idx(dstW, row, col)])
      invariant forall col :: 0 <= col < i ==> dst[Idx(dstW, j, col)] == Resized(im, dstW, dstH, j, col)
    {
      SampleInRange(srcW, dstW, i);
      var v := Sample(src, srcW, srcH, i * stepW, y);
      forall row, col | 0 <= row < j && 0 <= col < dstW
        ensures Idx(dstW, row, col) < Idx(dstW, j, i)
      {
        IdxOrdered(dstW, row, col, j, i);
      }
      assert dstW * j + i == Idx(dstW, j, i);
      dst[dstW * j + i] := v;
    }
  }

  // ---------------------------------------------------------- what it means

  /** The interpolation lies between bounds of the four cells around the position. */
  lemma {:induction false} BilinearBounds(im: Image, x: nat, y: nat, lo: int, hi: int)
    requires WellFormed(im) && x <= (im.w - 1) * FRAC && y <= (im.h - 1) * FRAC
    requires Lower(x) + 1 < im.w && Lower(y) + 1 < im.h
    requires forall row, col :: Lower(y) <= row <= Lower(y) + 1 && Lower(x) <= col <= Lower(x) + 1 ==>
               lo <= Cell(im, row, col) <= hi
    ensures lo <= Rounded(Bilinear(im, x, y)) <= hi
  {
    var col, row := Lower(x), Lower(y);
    LowerInRange(x, im.w);
    LowerInRange(y, im.h);
    WeightedBounds(Cell(im, row, col), Cell(im, row, col + 1), Cell(im, row + 1, col), Cell(im, row + 1, col + 1),
                   (col + 1) * FRAC - x, x - col * FRAC, (row + 1) * FRAC - y, y - row * FRAC, lo, hi);
    SampledSumIsBilinear(im, x, y);
  }

  /** Rounding yields the nearest integer, the larger of two. */
  lemma {:induction false} RoundedIsNearest(v: int)
    ensures 65536 * Rounded(v) - 32768 <= v < 65536 * Rounded(v) + 32768
  {
  }

  /** What the output holds, spelled out: the integer nearest to the mix of the four cells around the sample position,
      `fx` and `fy` 256ths of the way from one to the next. */
  lemma {:induction false} OutputIsNearest(im: Image, dstW: nat, dstH: nat, row: nat, col: nat)
    requires WellFormed(im) && 2 <= dstW && 2 <= dstH && row < dstH && col < dstW
    ensures 0 <= col * ((im.w - 1) * 256 / (dstW - 1)) <= (im.w - 1) * 256
    ensures 0 <= row * ((im.h - 1) * 256 / (dstH - 1)) <= (im.h - 1) * 256
    ensures var x, y := col * ((im.w - 1) * 256 / (dstW - 1)), row * ((im.h - 1) * 256 / (dstH - 1));
            var left, upper, fx, fy := x / 256, y / 256, x % 256, y % 256;
            var right := if left + 1 < im.w then left + 1 else left;
            var lower := if upper + 1 < im.h then upper + 1 else upper;
            var mix := (Cell(im, upper, left) * (256 - fx) + Cell(im, upper, right) * fx) * (256 - fy) +
                       (Cell(im, lower, left) * (256 - fx) + Cell(im, lower, right) * fx) * fy;
            var v := Resized(im, dstW, dstH, row, col);
            65536 * v - 32768 <= mix < 65536 * v + 32768
  {
    SampleInRange(im.w, dstW, col);
    SampleInRange(im.h, dstH, row);
    RoundedIsNearest(Bilinear(im, col * StepSize(im.w, dstW), row * StepSize(im.h, dstH)));
  }

  lemma {:induction false} SmallMultiple(d: int, e: int)
    requires 0 < d && 0 <= d * e < d
    ensures e == 0
  {
    assert 1 <= e ==> d * 1 <= d * e;
    assert e <= -1 ==> d * e <= d * -1;
  }

  lemma {:induction false} SameStep(n: nat)
    requires 2 <= n
    ensures StepSize(n, n) == FRAC
  {
    var d, q := n - 1, StepSize(n, n);
    LastSampleShortfall(n, n);
    assert d * (FRAC - q) == d * FRAC - d * q;
    SmallMultiple(d, FRAC - q);
  }

  /** Resizing to the same width and height changes nothing. */
  lemma {:induction false} SameSizeIsIdentity(im: Image, row: nat, col: nat)
    requires WellFormed(im) && row < im.h && col < im.w
    ensures Resized(im, im.w, im.h, row, col) == Cell(im, row, col)
  {
    SameStep(im.w);
    SameStep(im.h);
    SampleInRange(im.w, im.w, col);
    SampleInRange(im.h, im.h, row);
    assert (col * FRAC) / FRAC == col && (col * FRAC) % FRAC == 0;
    assert (row * FRAC) / FRAC == row && (row * FRAC) % FRAC == 0;
  }
}
