/** Slicing an image into a grid of patches, and the placeholder tokens that stand for them in the prompt. */
module ImageSlicing {
  import opened Arithmetic
  import opened Common

  /** Columns and rows. */
  datatype Grid = Grid(cols: nat, rows: nat)

  // ----- choosing the grid

  predicate CandidateCount(num: int, multiple: int, maxSlices: int) {
    multiple - 1 <= num <= multiple + 1 && num != 1 && num <= maxSlices
  }

  /** A factor pair of one of the candidate counts. */
  predicate IsCandidate(g: Grid, multiple: int, maxSlices: int) {
    g.cols >= 1 && g.rows >= 1 && CandidateCount(g.cols * g.rows, multiple, maxSlices)
  }

  method CandidateCounts(multiple: int, maxSlices: int) returns (nums: seq<int>)
    requires multiple >= 2
    ensures forall n :: n in nums <==> CandidateCount(n, multiple, maxSlices)
    ensures forall n :: n in nums ==> n >= 1
    ensures forall i, j :: 0 <= i < j < |nums| ==> nums[i] < nums[j]
  {
    nums := [];
    for d := -1 to 2
      invariant forall i, j :: 0 <= i < j < |nums| ==> nums[i] < nums[j]
      invariant forall n :: n in nums <==> CandidateCount(n, multiple, maxSlices) && n < multiple + d
    {
      var i := multiple + d;
      if !(i == 1 || i > maxSlices) {
        assert forall j :: 0 <= j < |nums| ==> nums[j] in nums;
        nums := nums + [i];
      }
    }
  }

  lemma FactorPair(num: nat, m: nat, g: Grid)
    requires num >= 1 && m >= 1
    ensures num % m == 0 ==> m * (num / m) == num && num / m >= 1
    ensures g.cols == m && g.cols * g.rows == num ==> num % m == 0 && num / m == g.rows
  {
    if num % m == 0 {
      ExactQuotient(num, m);
      var q := num / m;
      assert q <= 0 ==> m * q <= 0;
    }
    if g.cols == m && g.cols * g.rows == num {
      QuotientUnique(num, m, g.rows, 0);
    }
  }

  lemma FactorBounded(g: Grid, num: nat)
    requires g.cols * g.rows == num && num >= 1
    ensures 1 <= g.cols <= num && g.rows >= 1
  {
    assert g.cols == 0 || g.rows == 0 ==> g.cols * g.rows == 0;
    MulMonotone(1, g.rows, g.cols);
  }

  /** All factor pairs of one count, smallest number of columns first. */
  method FactorPairs(num: nat) returns (grids: seq<Grid>)
    requires num >= 1
    ensures forall g :: g in grids <==> g.cols * g.rows == num
    ensures forall i, j :: 0 <= i < j < |grids| ==> grids[i].cols < grids[j].cols
  {
    grids := [];
    var m := 1;
    while m <= num
      invariant 1 <= m <= num + 1
      invariant forall i, j :: 0 <= i < j < |grids| ==> grids[i].cols < grids[j].cols
      invariant forall g :: g in grids <==> g.cols * g.rows == num && g.cols < m
    {
      if num % m == 0 {
        assert forall i :: 0 <= i < |grids| ==> grids[i] in grids;
        grids := grids + [Grid(m, num / m)];
      }
      forall g
        ensures g in grids <==> g.cols * g.rows == num && g.cols < m + 1
      {
        FactorPair(num, m, g);
      }
      m := m + 1;
    }
    forall g: Grid
      ensures g.cols * g.rows == num ==> g.cols < m
    {
      if g.cols * g.rows == num {
        FactorBounded(g, num);
      }
    }
  }

  /** Fewer slices first, and of as many slices fewer columns. */
  predicate Earlier(a: Grid, b: Grid) {
    a.cols * a.rows < b.cols * b.rows || (a.cols * a.rows == b.cols * b.rows && a.cols < b.cols)
  }

  ghost predicate InOrder(grids: seq<Grid>) {
    forall i, j :: 0 <= i < j < |grids| ==> Earlier(grids[i], grids[j])
  }

  lemma OrderedAppend(grids: seq<Grid>, pairs: seq<Grid>, num: int)
    requires InOrder(grids) && forall g :: g in grids ==> g.cols * g.rows < num
    requires forall g :: g in pairs ==> g.cols * g.rows == num
    requires forall i, j :: 0 <= i < j < |pairs| ==> pairs[i].cols < pairs[j].cols
    ensures InOrder(grids + pairs)
  {
    var all := grids + pairs;
    forall i, j | 0 <= i < j < |all|
      ensures Earlier(all[i], all[j])
    {
      assert if i < |grids| then all[i] in grids else all[i] in pairs;
      assert if j < |grids| then all[j] in grids else all[j] in pairs;
    }
  }

  method CandidateGrids(multiple: int, maxSlices: int) returns (grids: seq<Grid>)
    requires multiple >= 2
    ensures forall g :: g in grids <==> IsCandidate(g, multiple, maxSlices)
    ensures InOrder(grids)
  {
    var nums := CandidateCounts(multiple, maxSlices);
    grids := [];
    for i := 0 to |nums|
      invariant forall g :: g in grids <==> g.cols * g.rows in nums[..i]
      invariant InOrder(grids)
    {
      assert nums[i] in nums;
      var pairs := FactorPairs(nums[i]);
      assert nums[..i + 1] == nums[..i] + [nums[i]];
      OrderedAppend(grids, pairs, nums[i]);
      grids := grids + pairs;
    }
    assert nums[..|nums|] == nums;
    forall g: Grid
      ensures g.cols * g.rows in nums <==> IsCandidate(g, multiple, maxSlices)
    {
      if g.cols * g.rows in nums {
        FactorBounded(g, g.cols * g.rows);
      }
    }
  }

  /** Among all factor pairs of the candidate counts, one whose error is least. */
  method BestGrid(multiple: int, maxSlices: int, error: Grid -> real) returns (best: Grid)
    requires 2 <= multiple <= maxSlices
    ensures IsCandidate(best, multiple, maxSlices)
    ensures forall g :: IsCandidate(g, multiple, maxSlices) ==>
              error(best) < error(g) || (error(best) == error(g) && (best == g || Earlier(best, g)))
  {
    var grids := CandidateGrids(multiple, maxSlices);
    assert IsCandidate(Grid(multiple, 1), multiple, maxSlices);
    best := Grid(1, 1);
    var minError: Option<real> := None;
    for i := 0 to |grids|
      invariant i == 0 <==> minError == None
      invariant i > 0 ==> best in grids[..i] && minError == Some(error(best))
      invariant forall g :: g in grids[..i] ==>
                  error(best) < error(g) || (error(best) == error(g) && (best == g || Earlier(best, g)))
    {
      assert grids[..i + 1] == grids[..i] + [grids[i]];
      assert forall g :: g in grids[..i] ==> Earlier(g, grids[i]);
      if minError == None || error(grids[i]) < minError.value {
        best, minError := grids[i], Some(error(grids[i]));
      }
    }
    assert grids[..|grids|] == grids;
    assert Grid(multiple, 1) in grids;
  }

  // ----- sizes

  /** The rounding, root and logarithm of the runtime. */
  datatype Numerics = Numerics(round: real -> int, sqrt: real -> real, log: real -> real)

  ghost predicate Sane(f: Numerics) {
    forall x: real :: x > 0.0 ==> f.sqrt(x) > 0.0
  }

  /** Rounding to a nearest integer, and a root without error. */
  ghost predicate Exact(f: Numerics) {
    && (forall x: real :: -0.5 <= f.round(x) as real - x <= 0.5)
    && (forall x: real :: x > 0.0 ==> f.sqrt(x) > 0.0 && f.sqrt(x) * f.sqrt(x) == x)
  }

  function EnsureDivide(length: real, unit: nat, f: Numerics): (r: nat)
    requires unit > 0
    ensures r >= unit && r % unit == 0
  {
    var n := f.round(length / unit as real);
    if n >= 1 then
      MulMonotone(1, n, unit);
      QuotientUnique(n * unit, unit, n, 0);
      n * unit
    else
      MulMonotone(0, -n, unit);
      assert n * unit == -((-n) * unit);
      QuotientUnique(unit, unit, 1, 0);
      Max(n * unit, unit)
  }

  function Abs(x: real): real {
    if x < 0.0 then -x else x
  }

  /** Halfway between two whole numbers, and between as many units. */
  lemma Halfway(j: int, k: int, x: real, unit: nat, length: real)
    requires unit > 0 && j <= k && length == x * unit as real
    ensures (j + k) as real >= 2.0 * x ==> (j * unit + k * unit) as real >= 2.0 * length
    ensures (j + k) as real <= 2.0 * x ==> (j * unit + k * unit) as real <= 2.0 * length
    ensures j * unit <= k * unit
  {
    var u := unit as real;
    assert (j * unit + k * unit) as real - 2.0 * length == ((j + k) as real - 2.0 * x) * u;
    SameSign((j + k) as real - 2.0 * x, u, (j * unit + k * unit) as real - 2.0 * length);
    MulMonotone(0, k - j, unit);
    assert k * unit == j * unit + (k - j) * unit;
  }

  lemma SameSign(d: real, u: real, p: real)
    requires u > 0.0 && p == d * u
    ensures d >= 0.0 ==> p >= 0.0
    ensures d <= 0.0 ==> p <= 0.0
    ensures d < 0.0 ==> p < 0.0
  {
    if d < 0.0 {
      assert (-d) * u > 0.0;
    }
  }

  lemma NonNegativeQuotient(a: real, b: real, q: real)
    requires a >= 0.0 && b > 0.0 && q == a / b
    ensures q >= 0.0 && q * b == a
  {
  }

  lemma EnsureDivideIs(length: real, unit: nat, f: Numerics, n: int)
    requires unit > 0 && n == f.round(length / unit as real)
    ensures EnsureDivide(length, unit, f) == (if n >= 1 then n else 1) * unit
  {
    if n < 1 {
      MulMonotone(0, -n, unit);
      assert n * unit == -((-n) * unit);
    }
  }

  /** No positive multiple is nearer than that of the rounding `n`, raised to one. */
  lemma NearestMultiple(length: real, unit: nat, x: real, n: int, m: int, k: int)
    requires unit > 0 && x >= 0.0 && length == x * unit as real
    requires -0.5 <= n as real - x <= 0.5 && k >= 1 && m == if n >= 1 then n else 1
    ensures Abs((m * unit) as real - length) <= Abs((k * unit) as real - length)
  {
    if m < k {
      assert k as real >= m as real + 1.0;
      Halfway(m, k, x, unit, length);
    } else {
      assert k < m ==> k as real <= m as real - 1.0;
      Halfway(k, m, x, unit, length);
    }
  }

  /** With rounding to a nearest integer, the result is a positive multiple of the unit nearest to the length. */
  lemma EnsureDivideNearest(length: real, unit: nat, f: Numerics, k: int)
    requires unit > 0 && length >= 0.0 && k >= 1
    requires -0.5 <= f.round(length / unit as real) as real - length / unit as real <= 0.5
    ensures Abs(EnsureDivide(length, unit, f) as real - length) <= Abs((k * unit) as real - length)
  {
    var x, n := length / unit as real, f.round(length / unit as real);
    NonNegativeQuotient(length, unit as real, x);
    EnsureDivideIs(length, unit, f, n);
    NearestMultiple(length, unit, x, n, if n >= 1 then n else 1, k);
  }

  datatype Size = Size(width: nat, height: nat)

  /** The width and height of an image of this ratio at the model's resolution. */
  function Target(scale: nat, ratio: real, f: Numerics): (int, int)
    requires ratio > 0.0 && Sane(f)
  {
    var h := (scale as real / f.sqrt(ratio)).Floor;
    ((h as real * ratio).Floor, h)
  }

  function FindBestResize(width: real, height: real, scale: nat, patch: nat, upscale: bool, f: Numerics): (r: Size)
    requires patch > 0 && width > 0.0 && height > 0.0 && Sane(f)
    ensures r.width >= patch && r.width % patch == 0 && r.height >= patch && r.height % patch == 0
  {
    if width * height > (scale * scale) as real || upscale then
      var ratio := width / height;
      RatioPositive(width, height);
      var (w, h) := Target(scale, ratio, f);
      Size(EnsureDivide(w as real, patch, f), EnsureDivide(h as real, patch, f))
    else Size(EnsureDivide(width, patch, f), EnsureDivide(height, patch, f))
  }

  lemma RatioPositive(a: real, b: real)
    requires a > 0.0 && b > 0.0
    ensures a / b > 0.0
  {
    assert a == (a / b) * b;
  }

  lemma NonNegativeProduct(a: real, b: real)
    requires a >= 0.0 && b >= 0.0
    ensures a * b >= 0.0 && (a > 0.0 && b > 0.0 ==> a * b > 0.0)
  {
  }

  lemma ProductOfSquares(x: real, root: real, s: real)
    requires x * root == s
    ensures (x * x) * (root * root) == s * s
  {
    assert (x * x) * (root * root) == (x * root) * (x * root);
  }

  lemma SquaresOrdered(a: real, b: real, k: real)
    requires 0.0 <= a <= b && k > 0.0
    ensures (a * a) * k <= (b * b) * k && (a < b ==> (a * a) * k < (b * b) * k)
  {
    NonNegativeProduct(b - a, b + a);
    assert (b - a) * (b + a) == b * b - a * a;
    NonNegativeProduct(b * b - a * a, k);
    assert (b * b - a * a) * k == (b * b) * k - (a * a) * k;
  }

  /** The largest whole number whose square times the ratio does not exceed the square of the resolution. */
  lemma RootBounds(scale: nat, ratio: real, root: real, x: real, h: int)
    requires ratio > 0.0 && root > 0.0 && root * root == ratio && x == scale as real / root && h == x.Floor
    ensures h >= 0
    ensures (h as real * h as real) * ratio <= scale as real * scale as real
    ensures scale as real * scale as real < ((h + 1) as real * (h + 1) as real) * ratio
  {
    NonNegativeQuotient(scale as real, root, x);
    ProductOfSquares(x, root, scale as real);
    SquaresOrdered(h as real, x, ratio);
    SquaresOrdered(x, (h + 1) as real, ratio);
  }

  /** The height and the width an image is resized to, before they become multiples of the patch size. */
  ghost predicate KeepsRatio(w: int, h: int, ratio: real, scale: nat) {
    && h >= 0 && (h as real * h as real) * ratio <= scale as real * scale as real
    && scale as real * scale as real < ((h + 1) as real * (h + 1) as real) * ratio
    && w as real <= h as real * ratio < w as real + 1.0
  }

  /**
   Where the image is resized, its height is the largest that keeps the ratio of its sides and at most as many pixels
   as the model's resolution, its width follows by the ratio, and both become multiples of the patch size.
   */
  lemma ResizeKeepsRatio(width: real, height: real, scale: nat, patch: nat, upscale: bool, f: Numerics)
    returns (w: int, h: int)
    requires patch > 0 && width > 0.0 && height > 0.0 && Sane(f) && Exact(f)
    requires width * height > (scale * scale) as real || upscale
    ensures KeepsRatio(w, h, width / height, scale)
    ensures FindBestResize(width, height, scale, patch, upscale, f) ==
              Size(EnsureDivide(w as real, patch, f), EnsureDivide(h as real, patch, f))
  {
    var ratio := width / height;
    RatioPositive(width, height);
    var size := Target(scale, ratio, f);
    w, h := size.0, size.1;
    TargetKeepsRatio(scale, ratio, f);
  }

  lemma TargetKeepsRatio(scale: nat, ratio: real, f: Numerics)
    requires ratio > 0.0 && Sane(f) && Exact(f)
    ensures KeepsRatio(Target(scale, ratio, f).0, Target(scale, ratio, f).1, ratio, scale)
  {
    var root := f.sqrt(ratio);
    RootBounds(scale, ratio, root, scale as real / root, (scale as real / root).Floor);
  }

  /** Other images keep their size, up to the multiples of the patch size nearest to it. */
  lemma ResizeKeepsSmall(width: real, height: real, scale: nat, patch: nat, f: Numerics, k: int)
    requires patch > 0 && width > 0.0 && height > 0.0 && Sane(f) && Exact(f) && k >= 1
    requires width * height <= (scale * scale) as real
    ensures var r := FindBestResize(width, height, scale, patch, false, f);
      && Abs(r.width as real - width) <= Abs((k * patch) as real - width)
      && Abs(r.height as real - height) <= Abs((k * patch) as real - height)
  {
    EnsureDivideNearest(width, patch, f, k);
    EnsureDivideNearest(height, patch, f, k);
  }

  /** The refined size: a patch size that fits the model, as many times as the grid has columns and rows. */
  function GetRefineSize(width: nat, height: nat, g: Grid, scale: nat, patch: nat, f: Numerics): (r: (Size, Size))
    requires patch > 0 && g.cols >= 1 && g.rows >= 1 && Sane(f)
    ensures r.0 == Size(r.1.width * g.cols, r.1.height * g.rows)
    ensures r.1.width >= patch && r.1.width % patch == 0 && r.1.height >= patch && r.1.height % patch == 0
  {
    var refineWidth := EnsureDivide(width as real, g.cols, f);
    var refineHeight := EnsureDivide(height as real, g.rows, f);
    RatioPositive(refineWidth as real, g.cols as real);
    RatioPositive(refineHeight as real, g.rows as real);
    var best := FindBestResize(refineWidth as real / g.cols as real, refineHeight as real / g.rows as real,
                               scale, patch, true, f);
    (Size(best.width * g.cols, best.height * g.rows), best)
  }

  /**
   A patch is what the model's resolution makes of a cell of the image, whose sides are first brought to the nearest
   multiples of the numbers of columns and rows.
   */
  lemma RefineCells(width: nat, height: nat, g: Grid, scale: nat, patch: nat, f: Numerics, k: int)
    returns (wide: nat, high: nat)
    requires patch > 0 && g.cols >= 1 && g.rows >= 1 && Sane(f) && Exact(f) && k >= 1
    ensures wide > 0 && wide % g.cols == 0 && high > 0 && high % g.rows == 0
    ensures Abs(wide as real - width as real) <= Abs((k * g.cols) as real - width as real)
    ensures Abs(high as real - height as real) <= Abs((k * g.rows) as real - height as real)
    ensures wide as real / g.cols as real > 0.0 && high as real / g.rows as real > 0.0
    ensures GetRefineSize(width, height, g, scale, patch, f).1 ==
              FindBestResize(wide as real / g.cols as real, high as real / g.rows as real, scale, patch, true, f)
  {
    wide, high := EnsureDivide(width as real, g.cols, f), EnsureDivide(height as real, g.rows, f);
    EnsureDivideNearest(width as real, g.cols, f, k);
    EnsureDivideNearest(height as real, g.rows, f, k);
    RatioPositive(wide as real, g.cols as real);
    RatioPositive(high as real, g.rows as real);
  }

  // ----- patches

  datatype Box = Box(left: nat, top: nat, right: nat, bottom: nat)

  predicate Inside(b: Box, x: nat, y: nat) {
    b.left <= x < b.right && b.top <= y < b.bottom
  }

  function PatchAt(w: nat, h: nat, row: nat, col: nat): Box {
    Box(col * w, row * h, col * w + w, row * h + h)
  }

  method SplitRow(width: nat, w: nat, h: nat, cols: nat, row: nat, top: nat) returns (images: seq<Box>)
    requires w > 0 && width == cols * w && top == row * h
    ensures |images| == cols && forall c :: 0 <= c < cols ==> images[c] == PatchAt(w, h, row, c)
  {
    images := [];
    var left := 0;
    while left < width
      invariant |images| <= cols && left == |images| * w
      invariant forall c :: 0 <= c < |images| ==> images[c] == PatchAt(w, h, row, c)
      decreases width - left
    {
      if |images| == cols { assert false; }
      images := images + [Box(left, top, left + w, top + h)];
      MulSucc(|images| - 1, w);
      left := left + w;
    }
    if |images| < cols {
      MulMonotone(|images| + 1, cols, w);
      MulSucc(|images|, w);
    }
  }

  /** Cutting an image whose sides are whole numbers of patches, with the step the code computes. */
  method SplitToPatches(width: nat, height: nat, g: Grid, ghost w: nat, ghost h: nat) returns (patches: seq<seq<Box>>)
    requires g.cols >= 1 && g.rows >= 1 && w > 0 && h > 0 && width == w * g.cols && height == h * g.rows
    ensures |patches| == g.rows && forall r :: 0 <= r < g.rows ==> |patches[r]| == g.cols
    ensures forall r, c :: 0 <= r < g.rows && 0 <= c < g.cols ==> patches[r][c] == PatchAt(w, h, r, c)
  {
    QuotientUnique(width, g.cols, w, 0);
    QuotientUnique(height, g.rows, h, 0);
    var gridX, gridY := width / g.cols, height / g.rows;
    assert g.cols * gridX == width && g.rows * gridY == height;
    patches := [];
    var top := 0;
    while top < height
      invariant |patches| <= g.rows && top == |patches| * gridY
      invariant forall r :: 0 <= r < |patches| ==> |patches[r]| == g.cols
      invariant forall r, c :: 0 <= r < |patches| && 0 <= c < g.cols ==> patches[r][c] == PatchAt(w, h, r, c)
      decreases height - top
    {
      if |patches| == g.rows { assert false; }
      var images := SplitRow(width, gridX, gridY, g.cols, |patches|, top);
      patches := patches + [images];
      MulSucc(|patches| - 1, gridY);
      top := top + gridY;
    }
    if |patches| < g.rows {
      MulMonotone(|patches| + 1, g.rows, gridY);
      MulSucc(|patches|, gridY);
    }
  }

  /** Every pixel lies in exactly one patch. */
  lemma PatchesTile(g: Grid, w: nat, h: nat, x: nat, y: nat, row: nat, col: nat)
    requires w > 0 && h > 0 && x < g.cols * w && y < g.rows * h && row < g.rows && col < g.cols
    ensures x / w < g.cols && y / h < g.rows
    ensures Inside(PatchAt(w, h, row, col), x, y) <==> row == y / h && col == x / w
  {
    GroupOfIndex(x, g.cols, w);
    GroupOfIndex(y, g.rows, h);
    SameBlock(x, w, col);
    SameBlock(y, h, row);
  }

  lemma SameBlock(x: nat, w: nat, c: nat)
    requires w > 0
    ensures c * w <= x < c * w + w <==> c == x / w
  {
    DivMod(x, w);
    var q := x / w;
    if c * w <= x < c * w + w {
      QuotientUnique(x, w, c, x - c * w);
    }
  }

  // ----- slicing an image

  function Ceil(x: real): int {
    -((-x).Floor)
  }

  /** `source` is the whole image resized; a sliced image also has a grid, a refined size and its patches. */
  datatype Slicing = Slicing(source: Size, cut: Option<(Grid, Size, seq<seq<Box>>)>)

  function Multiple(width: nat, height: nat, maxSlices: int, scale: nat): int
    requires scale > 0
  {
    RatioDefined(scale);
    Min(Ceil((width * height) as real / (scale * scale) as real), maxSlices)
  }

  /** The number of slices is the least that covers the image with squares of the model's resolution, capped. */
  lemma MultipleIsLeast(width: nat, height: nat, maxSlices: int, scale: nat, area: nat, square: nat)
    requires scale > 0 && area == width * height && square == scale * scale
    ensures var m := Multiple(width, height, maxSlices, scale);
      && m <= maxSlices && (m < maxSlices ==> m * square >= area)
      && forall k: int :: k * square >= area ==> m <= k
  {
    RatioDefined(scale);
    var ratio := area as real / square as real;
    CeilBounds(area, square, ratio);
    forall k: int | k < Ceil(ratio)
      ensures k * square < area
    {
      MulMonotone(0, Ceil(ratio) - 1 - k, square);
      assert (Ceil(ratio) - 1) * square == (Ceil(ratio) - 1 - k) * square + k * square;
    }
  }

  lemma CeilBounds(area: nat, square: nat, ratio: real)
    requires square > 0 && ratio == area as real / square as real
    ensures Ceil(ratio) * square >= area && (Ceil(ratio) - 1) * square < area
  {
    NonNegativeQuotient(area as real, square as real, ratio);
    ScaledSign(Ceil(ratio), ratio, square, area);
    ScaledSign(Ceil(ratio) - 1, ratio, square, area);
  }

  lemma ScaledSign(k: int, x: real, unit: nat, length: int)
    requires unit > 0 && length as real == x * unit as real
    ensures k as real >= x ==> k * unit >= length
    ensures k as real < x ==> k * unit < length
  {
    assert (k * unit) as real - length as real == (k as real - x) * unit as real;
    SameSign(k as real - x, unit as real, (k * unit) as real - length as real);
  }

  lemma RatioDefined(scale: nat)
    requires scale > 0
    ensures scale * scale > 0
  {
  }

  /** Side lengths are multiples of the patch size, and the patches cover the refined image row by row. */
  ghost predicate Covers(g: Grid, refined: Size, patches: seq<seq<Box>>, w: nat, h: nat) {
    && w > 0 && h > 0 && refined == Size(w * g.cols, h * g.rows)
    && |patches| == g.rows && (forall r :: 0 <= r < g.rows ==> |patches[r]| == g.cols)
    && (forall r, c :: 0 <= r < g.rows && 0 <= c < g.cols ==> patches[r][c] == PatchAt(w, h, r, c))
  }

  /** How far the grid is from the ratio of the image's sides. */
  function GridError(width: nat, height: nat, g: Grid, f: Numerics): real
    requires height > 0
  {
    if g.rows == 0 then 0.0
    else Abs(f.log(width as real / height as real) - f.log(g.cols as real / g.rows as real))
  }

  /** A grid of one slice more or less than wanted, or as many, but not of one slice nor of too many. */
  ghost predicate Allowed(g: Grid, multiple: int, maxSlices: int) {
    g.cols >= 1 && g.rows >= 1 && multiple - 1 <= g.cols * g.rows <= multiple + 1 && 2 <= g.cols * g.rows <= maxSlices
  }

  method SliceImage(width: nat, height: nat, maxSlices: int, scale: nat, patch: nat, neverSplit: bool, f: Numerics)
    returns (s: Slicing, ghost w: nat, ghost h: nat)
    requires width > 0 && height > 0 && scale > 0 && patch > 0 && Sane(f)
    ensures s.source.width >= patch && s.source.width % patch == 0
    ensures s.source.height >= patch && s.source.height % patch == 0
    ensures s.cut.Some? <==> Multiple(width, height, maxSlices, scale) > 1 && !neverSplit
    ensures s.cut.Some? ==>
              var (g, refined, patches) := s.cut.value;
              var multiple := Multiple(width, height, maxSlices, scale);
              && Allowed(g, multiple, maxSlices)
              && (forall g' :: Allowed(g', multiple, maxSlices) && g' != g ==>
                    var (e, e') :=
                      (Abs(f.log(width as real / height as real) - f.log(g.cols as real / g.rows as real)),
                       Abs(f.log(width as real / height as real) - f.log(g'.cols as real / g'.rows as real)));
                    e < e' || (e == e' && Earlier(g, g')))
              && Covers(g, refined, patches, w, h) && w % patch == 0 && h % patch == 0
              && Size(w, h) == GetRefineSize(width, height, g, scale, patch, f).1
    ensures s.source == FindBestResize(width as real, height as real, scale, patch, s.cut.None?, f)
  {
    var multiple := Multiple(width, height, maxSlices, scale);
    if multiple <= 1 || neverSplit {
      w, h := 0, 0;
      return Slicing(FindBestResize(width as real, height as real, scale, patch, true, f), None), w, h;
    }
    var source := FindBestResize(width as real, height as real, scale, patch, false, f);
    var g := BestGrid(multiple, maxSlices, g => GridError(width, height, g, f));
    AllowedCandidates(multiple, maxSlices);
    var (refined, size) := GetRefineSize(width, height, g, scale, patch, f);
    w, h := size.width, size.height;
    MulMonotone(1, g.cols, size.width);
    MulMonotone(1, g.rows, size.height);
    var patches := SplitToPatches(refined.width, refined.height, g, w, h);
    s := Slicing(source, Some((g, refined, patches)));
  }

  lemma AllowedCandidates(multiple: int, maxSlices: int)
    requires multiple >= 2
    ensures forall g :: IsCandidate(g, multiple, maxSlices) <==> Allowed(g, multiple, maxSlices)
  {
    forall g: Grid | g.cols >= 1 && g.rows >= 1
      ensures g.cols * g.rows >= 1
    {
      MulMonotone(1, g.cols, g.rows);
    }
  }
}
