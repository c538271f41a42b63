/** Adaptive tiling: origins along an axis, coverage, and detection over all tiles. */
module Tiling {
  import opened Outcomes
  import opened Machine
  import opened Reals
  import opened Geometry
  import opened Domain
  import opened ImageView
  import opened Suppression

  datatype TileConfig = TileConfig(
    enabled: bool,
    tileWidth: Size,
    tileHeight: Size,
    overlapRatio: real,
    maximumTiles: nat,
    maximumDetections: nat,
    mergeThreshold: real)
  {
    predicate Valid() {
      && tileWidth > 0 && tileHeight > 0
      && 0.0 <= overlapRatio < 0.5
      && 1 <= maximumTiles <= 4096 && 1 <= maximumDetections <= 4096
      && 0.0 <= mergeThreshold <= 1.0
    }
  }

  // ---------------------------------------------------------------- one axis

  function Overlap(tile: nat, ratio: real): int {
    (tile as real * ratio).Floor
  }

  /** Less than half a tile overlaps, so the step is positive: the source's zero-step error cannot arise. */
  lemma StepPositive(tile: nat, ratio: real)
    requires tile > 0 && 0.0 <= ratio < 0.5
    ensures 0 <= Overlap(tile, ratio) < tile
  {
    var t := tile as real;
    NonNegativeProduct(t, ratio);
    NonNegativeProduct(t, 1.0 - ratio);
    assert t * (1.0 - ratio) == t - t * ratio;
    NonNegativeProduct(t, 0.5 - ratio);
    assert t * (0.5 - ratio) == t * 0.5 - t * ratio;
  }

  /** The number of tiles along an axis: one, and one more for each further step needed to reach the end. */
  function Count(extent: nat, tile: nat, step: nat): nat
    requires step > 0
  {
    if extent <= tile then 1 else 1 + (extent - tile + step - 1) / step
  }

  /** Where tile k starts. */
  function Origin(extent: nat, tile: nat, step: nat, k: nat): int {
    if extent <= tile then 0
    else if k * step < extent - tile then k * step else extent - tile
  }

  lemma CountBounds(extent: nat, tile: nat, step: nat, k: nat)
    requires step > 0 && extent > tile
    ensures k < Count(extent, tile, step) - 1 <==> k * step < extent - tile
  {
    var last := extent - tile;
    var q := (last + step - 1) / step;
    var multiple := Division(last + step - 1, step);
    if k < q {
      RowsBefore(k + 1, q, step);
      assert (k + 1) * step == k * step + step;
    } else {
      RowsBefore(q, k, step);
    }
  }

  lemma Division(n: nat, d: nat) returns (multiple: nat)
    requires d > 0
    ensures multiple == n / d * d && multiple <= n < multiple + d
  {
    multiple := n / d * d;
  }

  method AxisOrigins(extent: Size, tile: Size, ratio: real) returns (origins: seq<nat>)
    requires extent > 0 && tile > 0 && 0.0 <= ratio < 0.5
    ensures 0 < tile - Overlap(tile, ratio)
    ensures IsGrid(extent, tile, tile - Overlap(tile, ratio), origins)
  {
    hide Count, Origin, Overlap;
    StepPositive(tile, ratio);
    var step: Size := tile - Overlap(tile, ratio);
    if extent <= tile {
      SingleTile(extent, tile, step);
      return [0];
    }
    origins := [];
    var origin: Size := 0;
    FirstOrigin(extent, tile, step);
    while true
      invariant origin == Origin(extent, tile, step, |origins|)
      invariant forall k | 0 <= k < |origins| :: origins[k] == Origin(extent, tile, step, k)
      invariant |origins| < Count(extent, tile, step)
      invariant 0 <= origin <= extent - tile
      decreases extent - origin
    {
      origins := origins + [origin];
      NextOrigin(extent, tile, step, |origins| - 1);
      if origin + tile >= extent {
        break;
      }
      var lastOrigin := extent - tile;
      var next := if origin > SIZE_MAX - step then lastOrigin
                  else if origin + step < lastOrigin then origin + step else lastOrigin;
      if next <= origin {
        break;
      }
      origin := next;
    }
  }

  /** The origins are those of the grid, each the right one. */
  ghost predicate IsGrid(extent: nat, tile: nat, step: nat, origins: seq<nat>)
    requires step > 0
  {
    && |origins| == Count(extent, tile, step)
    && forall k | 0 <= k < |origins| :: origins[k] == Origin(extent, tile, step, k)
  }

  lemma SingleTile(extent: nat, tile: nat, step: nat)
    requires step > 0 && extent <= tile
    ensures Count(extent, tile, step) == 1 && Origin(extent, tile, step, 0) == 0
  {
  }

  lemma FirstOrigin(extent: nat, tile: nat, step: nat)
    requires step > 0 && extent > tile
    ensures Origin(extent, tile, step, 0) == 0 && Count(extent, tile, step) > 0
  {
    CountBounds(extent, tile, step, 0);
  }

  lemma NextOrigin(extent: nat, tile: nat, step: nat, k: nat)
    requires step > 0 && extent > tile && k < Count(extent, tile, step)
    ensures var origin, last := Origin(extent, tile, step, k), extent - tile;
      && 0 <= origin <= last
      && (origin == last <==> k == Count(extent, tile, step) - 1)
      && Origin(extent, tile, step, k + 1) == if origin + step < last then origin + step else last
  {
    CountBounds(extent, tile, step, k);
    assert (k + 1) * step == k * step + step;
    assert k * step >= 0;
  }

  /** Origins increase strictly, start at 0, and the last tile ends at the end of the axis. */
  lemma GridShape(extent: nat, tile: nat, step: nat, origins: seq<nat>)
    requires step > 0 && extent > 0 && tile > 0 && IsGrid(extent, tile, step, origins)
    ensures origins[0] == 0
    ensures forall i, j | 0 <= i < j < |origins| :: origins[i] < origins[j]
    ensures extent > tile ==> origins[|origins| - 1] + tile == extent
    ensures forall k | 0 <= k < |origins| :: origins[k] < extent
  {
    if extent > tile {
      FirstOrigin(extent, tile, step);
      NextOrigin(extent, tile, step, |origins| - 1);
      forall i: nat, j: nat | i < j < |origins| ensures origins[i] < origins[j] {
        CountBounds(extent, tile, step, i);
        StepsGrow(i, j, step);
      }
      forall k: nat | k < |origins| ensures origins[k] < extent {
        NextOrigin(extent, tile, step, k);
        EndInside(extent, tile, step, k);
      }
    }
  }

  lemma StepsGrow(i: nat, j: nat, step: nat)
    requires i < j && step > 0
    ensures i * step < j * step
  {
    assert (i + 1) * step == i * step + step;
    assert (i + 1) * step <= j * step;
  }

  lemma EndInside(extent: nat, tile: nat, step: nat, k: nat)
    requires extent > tile
    ensures Origin(extent, tile, step, k) <= extent - tile
  {
  }

  /** A span of at most one more than the overlap lies wholly in some tile. */
  lemma SpanCovered(extent: nat, tile: nat, step: nat, origins: seq<nat>, a: nat, w: nat) returns (k: nat)
    requires 0 < step <= tile && IsGrid(extent, tile, step, origins)
    requires 1 <= w <= tile - step + 1 && a + w <= extent
    ensures k < |origins| && origins[k] <= a
    ensures a + w <= origins[k] + (if tile < extent - origins[k] then tile else extent - origins[k])
  {
    if extent <= tile {
      k := 0;
    } else {
      var q := a / step;
      assert q * step <= a < (q + 1) * step;
      assert (q + 1) * step == q * step + step;
      if q * step < extent - tile {
        k := q;
        CountBounds(extent, tile, step, q);
      } else {
        k := |origins| - 1;
        NextOrigin(extent, tile, step, k);
      }
    }
  }

  /** The bound is exact: when there are tiles a whole step apart, a span one longer falls between two of them. */
  lemma LongerSpanMissed(extent: nat, tile: nat, step: nat, origins: seq<nat>, k: nat)
    requires 0 < step <= tile && extent >= tile + step && IsGrid(extent, tile, step, origins) && k < |origins|
    ensures var a, w := step - 1, tile - step + 2;
      a + w <= extent && !(origins[k] <= a && a + w <= origins[k] + tile)
  {
    if k > 0 {
      StepsAtLeast(k, step);
    }
  }

  lemma StepsAtLeast(k: nat, step: nat)
    requires k > 0
    ensures k * step >= step
  {
  }

  // ---------------------------------------------------------------- all tiles

  /** What an underlying detector does with a view. */
  type Detector = View -> Result<seq<Detection>>

  function Clamp(v: real, hi: real): real {
    if v < 0.0 then 0.0 else if v > hi then hi else v
  }

  /** A tile's detection in image coordinates, cut to the image. */
  function Translate(d: Detection, x: nat, y: nat, width: nat, height: nat): Detection {
    var w, h := width as real, height as real;
    var left, top := d.box.x + x as real, d.box.y + y as real;
    var x1, y1 := Clamp(left, w), Clamp(top, h);
    var x2, y2 := Clamp(left + d.box.width, w), Clamp(top + d.box.height, h);
    d.(box := BoundingBox(x1, y1, Max(0.0, x2 - x1), Max(0.0, y2 - y1)),
       quadrilateral := seq(|d.quadrilateral|, i requires 0 <= i < |d.quadrilateral| =>
         var p := d.quadrilateral[i];
         p.(x := Clamp(p.x + x as real, w), y := Clamp(p.y + y as real, h))))
  }

  /** A translated detection lies in the image; a box that lay in its tile only moves. */
  lemma TranslateFacts(d: Detection, x: nat, y: nat, width: nat, height: nat)
    ensures var b := Translate(d, x, y, width, height).box;
      && 0.0 <= b.x && b.x + b.width <= width as real && 0.0 <= b.y && b.y + b.height <= height as real
      && (0.0 <= d.box.x && x as real + d.box.x + d.box.width <= width as real && d.box.width >= 0.0
          && 0.0 <= d.box.y && y as real + d.box.y + d.box.height <= height as real && d.box.height >= 0.0 ==>
          b == BoundingBox(d.box.x + x as real, d.box.y + y as real, d.box.width, d.box.height))
    ensures forall p <- Translate(d, x, y, width, height).quadrilateral ::
      0.0 <= p.x <= width as real && 0.0 <= p.y <= height as real
  {
  }

  function TileRegion(image: View, cfg: TileConfig, x: nat, y: nat): Region
    requires x < image.width && y < image.height
  {
    Region(x, y, if cfg.tileWidth < image.width - x then cfg.tileWidth else image.width - x,
           if cfg.tileHeight < image.height - y then cfg.tileHeight else image.height - y)
  }

  /** On a validated image every tile can be cut out, and what is cut out is a validated image of that size. */
  lemma TileIsValid(image: View, limits: Limits, cfg: TileConfig, x: nat, y: nat)
    requires image.Representable() && Sound(image, limits) && cfg.Valid() && x < image.width && y < image.height
    ensures var r := TileRegion(image, cfg, x, y);
      && MakeCropView(image, r).Success?
      && MakeCropView(image, r).value.Representable()
      && ValidateImage(MakeCropView(image, r).value, limits).Success?
      && MakeCropView(image, r).value.width == r.width && MakeCropView(image, r).value.height == r.height
  {
    hide MakeCropView, Sound, ValidateImage;
    var r := TileRegion(image, cfg, x, y);
    assert Inside(image, r);
    CropIsValid(image, limits, r);
    ValidatedExactly(MakeCropView(image, r).value, limits);
  }

  function AllTranslated(list: seq<Detection>, x: nat, y: nat, width: nat, height: nat): (r: seq<Detection>)
    ensures |r| == |list|
    ensures forall i | 0 <= i < |r| :: r[i] == Translate(list[i], x, y, width, height)
  {
    seq(|list|, i requires 0 <= i < |list| => Translate(list[i], x, y, width, height))
  }

  /** The detector's answer for a tile, in image coordinates; nothing if there is none. */
  function TileDetections(image: View, cfg: TileConfig, detector: Detector, x: nat, y: nat): seq<Detection>
    requires image.Representable() && x < image.width && y < image.height
  {
    var tile := MakeCropView(image, TileRegion(image, cfg, x, y));
    if tile.Failure? || detector(tile.value).Failure? then []
    else AllTranslated(detector(tile.value).value, x, y, image.width, image.height)
  }

  /** The first n tiles of a row of tiles. */
  function RowDetections(image: View, cfg: TileConfig, detector: Detector, xs: seq<nat>, y: nat, n: nat): seq<Detection>
    requires image.Representable() && n <= |xs| && (forall x <- xs :: x < image.width) && y < image.height
  {
    if n == 0 then []
    else
      assert xs[n - 1] in xs;
      RowDetections(image, cfg, detector, xs, y, n - 1) + TileDetections(image, cfg, detector, xs[n - 1], y)
  }

  /** The first n rows of tiles. */
  function GridDetections(image: View, cfg: TileConfig, detector: Detector, xs: seq<nat>, ys: seq<nat>, n: nat): seq<Detection>
    requires image.Representable() && n <= |ys| && (forall x <- xs :: x < image.width) && (forall y <- ys :: y < image.height)
  {
    if n == 0 then []
    else
      assert ys[n - 1] in ys;
      GridDetections(image, cfg, detector, xs, ys, n - 1) + RowDetections(image, cfg, detector, xs, ys[n - 1], |xs|)
  }

  ghost predicate GridsOf(image: View, cfg: TileConfig, xs: seq<nat>, ys: seq<nat>)
    requires cfg.Valid()
  {
    var stepX, stepY := cfg.tileWidth - Overlap(cfg.tileWidth, cfg.overlapRatio),
                        cfg.tileHeight - Overlap(cfg.tileHeight, cfg.overlapRatio);
    && 0 < stepX <= cfg.tileWidth && 0 < stepY <= cfg.tileHeight
    && IsGrid(image.width, cfg.tileWidth, stepX, xs) && IsGrid(image.height, cfg.tileHeight, stepY, ys)
    && (forall x <- xs :: x < image.width) && (forall y <- ys :: y < image.height)
  }

  predicate NeedsTiles(image: View, cfg: TileConfig) {
    cfg.enabled && (image.width > cfg.tileWidth || image.height > cfg.tileHeight)
  }

  /** One row of tiles; only the detector or an interruption can fail it. */
  method DetectRow(image: View, limits: Limits, cfg: TileConfig, detector: Detector, check: nat -> Option<Error>,
                   xs: seq<nat>, y: nat, row: nat)
    returns (r: Result<seq<Detection>>)
    requires image.Representable() && Sound(image, limits) && cfg.Valid()
    requires (forall x <- xs :: x < image.width) && y < image.height
    ensures r.Success? ==> r.value == RowDetections(image, cfg, detector, xs, y, |xs|)
    ensures r.Failure? ==> (exists k :: check(k) == Some(r.error)) || (exists v :: detector(v) == Failure(r.error))
  {
    hide MakeCropView, Sound, ValidateImage, Translate, TileRegion, TileConfig.Valid;
    var found: seq<Detection> := [];
    for i := 0 to |xs|
      invariant found == RowDetections(image, cfg, detector, xs, y, i)
    {
      var x := xs[i];
      assert x in xs;
      var interrupted := check(1 + row * |xs| + i);
      if interrupted.Some? {
        return Failure(interrupted.value);
      }
      TileIsValid(image, limits, cfg, x, y);
      var tile := MakeCropView(image, TileRegion(image, cfg, x, y));
      var detections := detector(tile.value);
      if detections.Failure? {
        return Failure(detections.error);
      }
      found := found + AllTranslated(detections.value, x, y, image.width, image.height);
    }
    r := Success(found);
  }

  /**
   * Detection over the whole image and, if it is larger than a tile, over all tiles. It can fail only for an invalid
   * image, an interruption, a failing detector or too many tiles, never for cutting out a tile.
   */
  method Detect(image: View, limits: Limits, cfg: TileConfig, detector: Detector, check: nat -> Option<Error>)
    returns (r: Result<seq<Detection>>, ghost xs: seq<nat>, ghost ys: seq<nat>)
    requires image.Representable() && cfg.Valid()
    ensures r.Success? ==> Sound(image, limits) && detector(image).Success?
    ensures r.Success? && !NeedsTiles(image, cfg) ==>
      r.value == Merged(detector(image).value, cfg.mergeThreshold, cfg.maximumDetections)
    ensures r.Success? && NeedsTiles(image, cfg) ==>
      && GridsOf(image, cfg, xs, ys) && |xs| * |ys| <= cfg.maximumTiles
      && r.value == Merged(detector(image).value + GridDetections(image, cfg, detector, xs, ys, |ys|),
                           cfg.mergeThreshold, cfg.maximumDetections)
    ensures r.Failure? ==>
      || (exists k :: check(k) == Some(r.error)) || (exists v :: detector(v) == Failure(r.error))
      || (!Sound(image, limits) && r.error == InvalidImage)
      || (NeedsTiles(image, cfg) && GridsOf(image, cfg, xs, ys) && |xs| * |ys| > cfg.maximumTiles && r.error == ResourceExhausted)
  {
    hide MakeCropView, Sound, ValidateImage, Merged, IsGrid, Overlap, GridsOf, GridDetections, NeedsTiles;
    xs, ys := [], [];
    var interrupted := check(0);
    if interrupted.Some? {
      return Failure(interrupted.value), xs, ys;
    }
    ValidatedExactly(image, limits);
    var validated := ValidateImage(image, limits);
    if validated.Failure? {
      return Failure(validated.error), xs, ys;
    }
    var combined := detector(image);
    if combined.Failure? {
      return Failure(combined.error), xs, ys;
    }
    if !NeedsTiles(image, cfg) {
      var merged := MergeDetections(combined.value, cfg.mergeThreshold, cfg.maximumDetections);
      return Success(merged), xs, ys;
    }
    SoundIsNotEmpty(image, limits);
    var xOrigins := AxisOrigins(image.width, cfg.tileWidth, cfg.overlapRatio);
    var yOrigins := AxisOrigins(image.height, cfg.tileHeight, cfg.overlapRatio);
    GridsFit(image, cfg, xOrigins, yOrigins);
    xs, ys := xOrigins, yOrigins;
    if |xOrigins| * |yOrigins| > cfg.maximumTiles {
      return Failure(ResourceExhausted), xs, ys;
    }
    GridInside(image, cfg, xOrigins, yOrigins);
    var tiled := DetectGrid(image, limits, cfg, detector, check, xOrigins, yOrigins);
    if tiled.Failure? {
      return Failure(tiled.error), xs, ys;
    }
    var merged := MergeDetections(combined.value + tiled.value, cfg.mergeThreshold, cfg.maximumDetections);
    return Success(merged), xs, ys;
  }

  /** All rows of tiles. */
  method DetectGrid(image: View, limits: Limits, cfg: TileConfig, detector: Detector, check: nat -> Option<Error>,
                    xs: seq<nat>, ys: seq<nat>)
    returns (r: Result<seq<Detection>>)
    requires image.Representable() && Sound(image, limits) && cfg.Valid()
    requires (forall x <- xs :: x < image.width) && (forall y <- ys :: y < image.height)
    ensures r.Success? ==> r.value == GridDetections(image, cfg, detector, xs, ys, |ys|)
    ensures r.Failure? ==> (exists k :: check(k) == Some(r.error)) || (exists v :: detector(v) == Failure(r.error))
  {
    hide Sound, RowDetections, TileConfig.Valid;
    var found: seq<Detection> := [];
    for j := 0 to |ys|
      invariant found == GridDetections(image, cfg, detector, xs, ys, j)
    {
      assert ys[j] in ys;
      var row := DetectRow(image, limits, cfg, detector, check, xs, ys[j], j);
      if row.Failure? {
        return Failure(row.error);
      }
      found := found + row.value;
    }
    r := Success(found);
  }

  lemma GridInside(image: View, cfg: TileConfig, xs: seq<nat>, ys: seq<nat>)
    requires cfg.Valid() && GridsOf(image, cfg, xs, ys)
    ensures (forall x <- xs :: x < image.width) && (forall y <- ys :: y < image.height)
  {
  }

  lemma SoundIsNotEmpty(image: View, limits: Limits)
    requires Sound(image, limits)
    ensures image.width > 0 && image.height > 0
  {
  }

  lemma GridsFit(image: View, cfg: TileConfig, xs: seq<nat>, ys: seq<nat>)
    requires cfg.Valid() && image.width > 0 && image.height > 0
    requires 0 < cfg.tileWidth - Overlap(cfg.tileWidth, cfg.overlapRatio)
    requires 0 < cfg.tileHeight - Overlap(cfg.tileHeight, cfg.overlapRatio)
    requires IsGrid(image.width, cfg.tileWidth, cfg.tileWidth - Overlap(cfg.tileWidth, cfg.overlapRatio), xs)
    requires IsGrid(image.height, cfg.tileHeight, cfg.tileHeight - Overlap(cfg.tileHeight, cfg.overlapRatio), ys)
    ensures GridsOf(image, cfg, xs, ys)
  {
    hide Count, Origin, Overlap, IsGrid;
    StepPositive(cfg.tileWidth, cfg.overlapRatio);
    StepPositive(cfg.tileHeight, cfg.overlapRatio);
    GridShape(image.width, cfg.tileWidth, cfg.tileWidth - Overlap(cfg.tileWidth, cfg.overlapRatio), xs);
    GridShape(image.height, cfg.tileHeight, cfg.tileHeight - Overlap(cfg.tileHeight, cfg.overlapRatio), ys);
  }

  /** A box of whole pixels at most one larger than the overlap, both ways, lies wholly in some tile. */
  lemma BoxCovered(image: View, cfg: TileConfig, xs: seq<nat>, ys: seq<nat>, x: nat, y: nat, w: nat, h: nat)
    requires cfg.Valid() && GridsOf(image, cfg, xs, ys)
    requires 1 <= w <= Overlap(cfg.tileWidth, cfg.overlapRatio) + 1 && x + w <= image.width
    requires 1 <= h <= Overlap(cfg.tileHeight, cfg.overlapRatio) + 1 && y + h <= image.height
    ensures exists tx, ty | tx in xs && ty in ys :: InRegion(TileRegion(image, cfg, tx, ty), x, y, w, h)
  {
    hide IsGrid, Overlap;
    var i := SpanCovered(image.width, cfg.tileWidth, cfg.tileWidth - Overlap(cfg.tileWidth, cfg.overlapRatio), xs, x, w);
    var j := SpanCovered(image.height, cfg.tileHeight, cfg.tileHeight - Overlap(cfg.tileHeight, cfg.overlapRatio), ys, y, h);
    assert xs[i] in xs && ys[j] in ys;
    assert InRegion(TileRegion(image, cfg, xs[i], ys[j]), x, y, w, h);
  }

  predicate InRegion(r: Region, x: nat, y: nat, w: nat, h: nat) {
    r.x <= x && x + w <= r.x + r.width && r.y <= y && y + h <= r.y + r.height
  }
}
