/** Letterboxing an image into the pose model's tensor, and mapping model coordinates back. */
module Letterbox {
  import opened Outcomes
  import opened Machine
  import opened Reals
  import opened ImageView

  datatype InputSpec = InputSpec(width: Size, height: Size, scale: real, padValue: real)
  {
    predicate Valid() {
      width > 0 && height > 0 && scale > 0.0 && 0.0 <= padValue <= 255.0
    }
  }

  datatype Metadata = Metadata(
    sourceWidth: nat,
    sourceHeight: nat,
    scale: real,
    padLeft: nat,
    padTop: nat,
    resizedWidth: nat,
    resizedHeight: nat)

  // ---------------------------------------------------------------- one axis

  /** llround of a non-negative number. */
  function Round(v: real): int {
    (v + 0.5).Floor
  }

  function Resized(extent: nat, scale: real, limit: nat): nat
    requires limit > 0
  {
    var rounded := Round(extent as real * scale);
    if rounded < 1 then 1 else if rounded > limit then limit else rounded
  }

  function Pad(limit: nat, resized: nat): nat
    requires resized <= limit
  {
    (limit - resized) / 2
  }

  /** The resized extent differs from the scaled one by at most a half, except that it is at least 1. */
  lemma ResizedBounds(extent: nat, scale: real, limit: nat)
    requires limit > 0 && scale > 0.0 && extent as real * scale <= limit as real
    ensures 1 <= Resized(extent, scale, limit) <= limit
    ensures extent as real * scale >= 0.5 ==>
      -0.5 <= Resized(extent, scale, limit) as real - extent as real * scale <= 0.5
    ensures extent as real * scale < 0.5 ==> Resized(extent, scale, limit) == 1
  {
    NonNegativeProduct(extent as real, scale);
  }

  /** The point the preprocessor asks the sampler for at resized pixel r, with pixel i covering [i, i + 1): half more than
      its own index coordinate. The sampler then moves it into the image (`ReadAt`). */
  function SampledAt(extent: nat, resized: nat, r: nat): real
    requires resized > 0
  {
    (r as real + 0.5) * (extent as real / resized as real)
  }

  /** The parser's map from a model coordinate to the source image. */
  function SourceCoordinate(v: real, pad: nat, scale: real, extent: nat): real
    requires scale > 0.0
  {
    var value := (v - pad as real) / scale;
    if value < 0.0 then 0.0 else if value > extent as real then extent as real else value
  }

  /** Within half a model pixel, in source pixels. */
  predicate WithinHalf(back: real, sampled: real, scale: real)
    requires scale > 0.0
  {
    -(0.5 / scale) < back - sampled < 0.5 / scale
  }

  /** Mapping the centre of a resized pixel back misses the point that was sampled for it by less than half a model
      pixel, however small the image was. */
  lemma RoundTripError(extent: nat, scale: real, limit: nat, pad: nat, r: nat)
    requires extent > 0 && limit > 0 && scale > 0.0 && extent as real * scale <= limit as real
    requires r < Resized(extent, scale, limit)
    ensures WithinHalf(SourceCoordinate(pad as real + (r as real + 0.5), pad, scale, extent),
                       SampledAt(extent, Resized(extent, scale, limit), r), scale)
  {
    hide *;
    ResizedBounds(extent, scale, limit);
    var resized := Resized(extent, scale, limit);
    var centre, n, scaled := r as real + 0.5, extent as real, extent as real * scale;
    var value, sampled := centre / scale, SampledAt(extent, resized, r);
    var back := SourceCoordinate(pad as real + centre, pad, scale, extent);
    BackIs(centre, pad, scale, extent, value);
    SampledInside(extent, resized, r);
    ValueScaled(centre, scale, value);
    if scaled < 0.5 {
      TinyError(n, scale, scaled, centre, value, sampled, back);
    } else {
      var sample := sampled * scale;
      SampledScaled(extent, resized, r, scale, scaled, sampled, sample);
      UnclampedError(centre, scaled, resized as real, sample, centre * scaled);
      ClampedError(n, scale, scaled, centre, value, sampled, sample, back);
    }
  }

  /** The point the sampler really reads: no further out than the middles of the first and the last pixel. */
  function ReadAt(extent: nat, resized: nat, r: nat): real
    requires extent > 0 && resized > 0
  {
    Clamped(SampledAt(extent, resized, r) - 0.5, extent) + 0.5
  }

  /** An image that is not enlarged is read exactly where it was asked for, so half a model pixel bounds the error there
      too. An enlarged one can be moved at its edges, by less than half a source pixel: then that bounds the error. */
  lemma ReadError(extent: nat, scale: real, limit: nat, pad: nat, r: nat)
    requires extent > 0 && limit > 0 && scale > 0.0 && extent as real * scale <= limit as real
    requires r < Resized(extent, scale, limit)
    ensures var resized := Resized(extent, scale, limit);
      var back := SourceCoordinate(pad as real + (r as real + 0.5), pad, scale, extent);
      var sampled, read := SampledAt(extent, resized, r), ReadAt(extent, resized, r);
      && (resized <= extent ==> read == sampled)
      && -0.5 < read - sampled < 0.5
      && (read == sampled ==> WithinHalf(back, read, scale))
      && (WithinHalf(back, read, scale) || -0.5 <= back - read <= 0.5)
  {
    hide *;
    ResizedBounds(extent, scale, limit);
    var resized := Resized(extent, scale, limit);
    var centre := r as real + 0.5;
    var back := SourceCoordinate(pad as real + centre, pad, scale, extent);
    var sampled, read := SampledAt(extent, resized, r), ReadAt(extent, resized, r);
    RoundTripError(extent, scale, limit, pad, r);
    SampledInside(extent, resized, r);
    BackInImage(pad as real + centre, pad, scale, extent);
    ReadIs(extent, resized, r);
    MovedError(extent as real, sampled, read, back, scale);
    if resized <= extent {
      SampledWellInside(extent, resized, r);
    }
  }

  lemma ReadIs(extent: nat, resized: nat, r: nat)
    requires extent > 0 && resized > 0
    ensures var sampled := SampledAt(extent, resized, r);
      ReadAt(extent, resized, r)
      == if sampled < 0.5 then 0.5 else if sampled > extent as real - 0.5 then extent as real - 0.5 else sampled
  {
    hide SampledAt;
  }

  lemma BackInImage(v: real, pad: nat, scale: real, extent: nat)
    requires scale > 0.0
    ensures 0.0 <= SourceCoordinate(v, pad, scale, extent) <= extent as real
  {
  }

  lemma MovedError(n: real, sampled: real, read: real, back: real, scale: real)
    requires scale > 0.0 && n >= 1.0 && 0.0 < sampled < n && 0.0 <= back <= n
    requires read == if sampled < 0.5 then 0.5 else if sampled > n - 0.5 then n - 0.5 else sampled
    requires WithinHalf(back, sampled, scale)
    ensures -0.5 < read - sampled < 0.5
    ensures WithinHalf(back, read, scale) || -0.5 <= back - read <= 0.5
  {
    var half := 0.5 / scale;
    assert -half < back - sampled < half;
  }

  /** Without enlargement the middles of the resized pixels stay half a source pixel away from the edges. */
  lemma SampledWellInside(extent: nat, resized: nat, r: nat)
    requires r < resized <= extent
    ensures 0.5 <= SampledAt(extent, resized, r) <= extent as real - 0.5
  {
    var n, size, centre := extent as real, resized as real, r as real + 0.5;
    var ratio := n / size;
    assert ratio * size == n;
    assert ratio >= 1.0;
    NonNegativeProduct(r as real, ratio);
    assert centre * ratio == r as real * ratio + 0.5 * ratio;
    NonNegativeProduct(size - r as real - 1.0, ratio);
    assert (size - r as real - 1.0) * ratio == n - r as real * ratio - ratio;
  }

  lemma BackIs(centre: real, pad: nat, scale: real, extent: nat, value: real)
    requires scale > 0.0 && value == centre / scale
    ensures SourceCoordinate(pad as real + centre, pad, scale, extent)
         == if value < 0.0 then 0.0 else if value > extent as real then extent as real else value
  {
    assert pad as real + centre - pad as real == centre;
  }

  lemma ValueScaled(centre: real, scale: real, value: real)
    requires scale > 0.0 && centre >= 0.5 && value == centre / scale
    ensures value * scale == centre && value > 0.0
  {
  }

  /** Factors are ordered like their products with a positive number. */
  lemma OrderOfFactors(a: real, b: real, c: real, p: real, q: real)
    requires c > 0.0 && a * c == p && b * c == q && p < q
    ensures a < b
  {
  }

  lemma HalfModelPixel(back: real, sampled: real, scale: real, gap: real, scaledGap: real)
    requires scale > 0.0 && gap == back - sampled && scaledGap == gap * scale && -0.5 < scaledGap < 0.5
    ensures WithinHalf(back, sampled, scale)
  {
    var half := 0.5 / scale;
    var low := -half;
    assert half * scale == 0.5;
    assert low * scale == -0.5;
    OrderOfFactors(gap, half, scale, scaledGap, 0.5);
    OrderOfFactors(low, gap, scale, -0.5, scaledGap);
  }

  /** One resized pixel: the parser clamps to the far edge, the sample was the middle. */
  lemma TinyError(n: real, scale: real, scaled: real, centre: real, value: real, sampled: real, back: real)
    requires 0.0 < n && 0.0 < scale && scaled == n * scale && value * scale == centre && scaled < 0.5 <= centre
    requires sampled == 0.5 * n
    requires back == if value < 0.0 then 0.0 else if value > n then n else value
    ensures WithinHalf(back, sampled, scale)
  {
    OrderOfFactors(n, value, scale, scaled, centre);
    NonNegativeProduct(n, scale);
    var gap := 0.5 * n;
    Halved(n, scale, gap);
    HalfModelPixel(back, sampled, scale, gap, gap * scale);
  }

  lemma Halved(n: real, scale: real, half: real)
    requires half == 0.5 * n
    ensures half * scale == 0.5 * (n * scale)
  {
  }

  lemma ScaledGap(a: real, b: real, c: real, gap: real, p: real, q: real)
    requires gap == a - b && p == a * c && q == b * c
    ensures gap * c == p - q
  {
  }

  /** Clamping to the far edge moves towards the sample. */
  lemma ClampedError(n: real, scale: real, scaled: real, centre: real, value: real, sampled: real, sample: real, back: real)
    requires scale > 0.0 && value > 0.0 && value * scale == centre && scaled == n * scale && sample == sampled * scale
    requires sampled < n && -0.5 < centre - sample < 0.5
    requires back == if value < 0.0 then 0.0 else if value > n then n else value
    ensures WithinHalf(back, sampled, scale)
  {
    var gap := back - sampled;
    if value > n {
      var over, room := value - n, n - sampled;
      ScaledGap(value, n, scale, over, centre, scaled);
      ScaledGap(n, sampled, scale, room, scaled, sample);
      NonNegativeProduct(over, scale);
      NonNegativeProduct(room, scale);
      HalfModelPixel(back, sampled, scale, gap, scaled - sample);
    } else {
      ScaledGap(value, sampled, scale, gap, centre, sample);
      HalfModelPixel(back, sampled, scale, gap, centre - sample);
    }
  }

  lemma SampledInside(extent: nat, resized: nat, r: nat)
    requires extent > 0 && r < resized
    ensures 0.0 < SampledAt(extent, resized, r) < extent as real
    ensures resized == 1 ==> SampledAt(extent, resized, r) == 0.5 * extent as real
  {
    var n, size, centre := extent as real, resized as real, r as real + 0.5;
    var ratio := n / size;
    assert ratio * size == n;
    assert ratio > 0.0;
    assert centre * ratio > 0.0;
    assert (size - centre) * ratio > 0.0;
    assert (size - centre) * ratio == n - centre * ratio;
  }

  lemma SampledScaled(extent: nat, resized: nat, r: nat, scale: real, scaled: real, sampled: real, sample: real)
    requires resized > 0 && scale > 0.0 && sampled == SampledAt(extent, resized, r)
    requires scaled == extent as real * scale && sample == sampled * scale
    ensures sample * resized as real == (r as real + 0.5) * scaled
  {
    var centre, n, size := r as real + 0.5, extent as real, resized as real;
    var ratio := n / size;
    assert ratio * size == n;
    assert sampled == centre * ratio;
    assert sample * size == centre * ratio * scale * size;
    assert centre * ratio * scale * size == centre * scale * (ratio * size);
    assert centre * scale * n == centre * (n * scale);
  }

  /** The scaled sample and the centre differ by the rounding of the size, in proportion. */
  lemma UnclampedError(centre: real, scaled: real, size: real, sample: real, common: real)
    requires 0.0 < centre < size && -0.5 <= size - scaled <= 0.5
    requires sample * size == common && centre * scaled == common
    ensures -0.5 < centre - sample < 0.5
  {
    var error, rounding := centre - sample, size - scaled;
    var product := centre * size;
    ScaledGap(centre, sample, size, error, product, common);
    assert centre * rounding == product - common;
    NonNegativeProduct(centre, 0.5 - rounding);
    NonNegativeProduct(centre, 0.5 + rounding);
    var share := centre * rounding;
    assert centre * (0.5 - rounding) == 0.5 * centre - share;
    assert centre * (0.5 + rounding) == 0.5 * centre + share;
    OrderOfFactors(error, 0.5, size, share, 0.5 * size);
    OrderOfFactors(-0.5, error, size, -0.5 * size, share);
  }

  // ---------------------------------------------------------------- both axes

  function MakeMetadata(width: nat, height: nat, spec: InputSpec): (m: Metadata)
    requires width > 0 && height > 0 && spec.Valid()
    ensures m.scale > 0.0
  {
    var scaleX, scaleY := spec.width as real / width as real, spec.height as real / height as real;
    var scale := Min(scaleX, scaleY);
    ScaleFits(width, height, spec);
    ResizedBounds(width, scale, spec.width);
    ResizedBounds(height, scale, spec.height);
    var resizedWidth, resizedHeight := Resized(width, scale, spec.width), Resized(height, scale, spec.height);
    Metadata(width, height, scale, Pad(spec.width, resizedWidth), Pad(spec.height, resizedHeight), resizedWidth, resizedHeight)
  }

  lemma ScaleFits(width: nat, height: nat, spec: InputSpec)
    requires width > 0 && height > 0 && spec.Valid()
    ensures var scale := Min(spec.width as real / width as real, spec.height as real / height as real);
      scale > 0.0 && width as real * scale <= spec.width as real && height as real * scale <= spec.height as real
  {
    QuotientFits(width as real, spec.width as real, Min(spec.width as real / width as real, spec.height as real / height as real));
    QuotientFits(height as real, spec.height as real, Min(spec.width as real / width as real, spec.height as real / height as real));
  }

  lemma QuotientFits(extent: real, limit: real, scale: real)
    requires extent > 0.0 && limit > 0.0 && scale <= limit / extent
    ensures extent * scale <= limit && limit / extent > 0.0
  {
    var q := limit / extent;
    assert q * extent == limit;
    NonNegativeProduct(extent, q - scale);
    assert extent * (q - scale) == extent * q - extent * scale;
  }

  /** The resized image lies inside the tensor, and both axes keep the round-trip error below half a model pixel. */
  lemma MetadataFacts(width: nat, height: nat, spec: InputSpec)
    requires width > 0 && height > 0 && spec.Valid()
    ensures var m := MakeMetadata(width, height, spec);
      && 1 <= m.resizedWidth && m.padLeft + m.resizedWidth <= spec.width
      && 1 <= m.resizedHeight && m.padTop + m.resizedHeight <= spec.height
      && Faithful(width, m.resizedWidth, m.padLeft, m.scale)
      && Faithful(height, m.resizedHeight, m.padTop, m.scale)
  {
    hide MakeMetadata, Resized, Pad, Faithful, Min;
    var m := MakeMetadata(width, height, spec);
    MetadataIs(width, height, spec);
    ScaleFits(width, height, spec);
    ResizedBounds(width, m.scale, spec.width);
    ResizedBounds(height, m.scale, spec.height);
    AxisFaithful(width, m.scale, spec.width, m.padLeft);
    AxisFaithful(height, m.scale, spec.height, m.padTop);
  }

  lemma MetadataIs(width: nat, height: nat, spec: InputSpec)
    requires width > 0 && height > 0 && spec.Valid()
    ensures var m := MakeMetadata(width, height, spec);
      && m.scale == Min(spec.width as real / width as real, spec.height as real / height as real)
      && m.resizedWidth == Resized(width, m.scale, spec.width) && m.resizedHeight == Resized(height, m.scale, spec.height)
      && (m.resizedWidth <= spec.width ==> m.padLeft + m.resizedWidth <= spec.width)
      && (m.resizedHeight <= spec.height ==> m.padTop + m.resizedHeight <= spec.height)
  {
    hide Resized, Min;
  }

  /** A resized pixel's centre maps back to within half a model pixel of the point asked for; the point read is that one,
      or, in an enlarged image, at most half a source pixel away from where the centre maps back. */
  ghost predicate FaithfulAt(extent: nat, resized: nat, pad: nat, scale: real, r: nat)
    requires extent > 0 && resized > 0 && scale > 0.0
  {
    var back := SourceCoordinate(pad as real + (r as real + 0.5), pad, scale, extent);
    var sampled, read := SampledAt(extent, resized, r), ReadAt(extent, resized, r);
    && WithinHalf(back, sampled, scale)
    && (resized <= extent ==> read == sampled)
    && (WithinHalf(back, read, scale) || -0.5 <= back - read <= 0.5)
  }

  ghost predicate Faithful(extent: nat, resized: nat, pad: nat, scale: real)
    requires extent > 0 && resized > 0 && scale > 0.0
  {
    forall r: nat | r < resized :: FaithfulAt(extent, resized, pad, scale, r)
  }

  lemma AxisFaithful(extent: nat, scale: real, limit: nat, pad: nat)
    requires extent > 0 && limit > 0 && scale > 0.0 && extent as real * scale <= limit as real
    ensures Resized(extent, scale, limit) > 0 && Faithful(extent, Resized(extent, scale, limit), pad, scale)
  {
    hide Resized, WithinHalf, SourceCoordinate, SampledAt, ReadAt;
    ResizedBounds(extent, scale, limit);
    forall r: nat | r < Resized(extent, scale, limit) ensures FaithfulAt(extent, Resized(extent, scale, limit), pad, scale, r) {
      RoundTripError(extent, scale, limit, pad, r);
      ReadError(extent, scale, limit, pad, r);
    }
  }

  // ---------------------------------------------------------------- sampling

  function ByteAt(image: View, limits: Limits, x: nat, y: nat, c: nat): Byte
    requires Sound(image, limits) && x < image.width && y < image.height && c < Channels(image.format)
  {
    PixelsInBuffer(image, limits, x, y, c);
    image.bytes[Offset(image, x, y, c)]
  }

  /** The channel that holds red, green or blue. */
  function ColourChannel(f: PixelFormat, colour: nat): (c: nat)
    requires colour < 3
    ensures c < Channels(f)
  {
    match f
    case Gray8 => 0
    case Rgb8 => colour
    case Bgr8 => 2 - colour
  }

  /** Pixel (x, y)'s red, green or blue. */
  function Pixel(image: View, limits: Limits, x: nat, y: nat, colour: nat): (v: real)
    requires Sound(image, limits) && x < image.width && y < image.height && colour < 3
    ensures 0.0 <= v <= 255.0
  {
    ByteAt(image, limits, x, y, ColourChannel(image.format, colour)) as real
  }

  /** The pixel at or before a coordinate, and the one after it, both inside the image. */
  function Low(v: real, extent: nat): (i: nat)
    requires extent > 0
    ensures i < extent
  {
    Clamped(v, extent).Floor
  }

  function High(v: real, extent: nat): (i: nat)
    requires extent > 0
    ensures i < extent
  {
    if Low(v, extent) + 1 < extent - 1 then Low(v, extent) + 1 else extent - 1
  }

  function Clamped(v: real, extent: nat): (r: real)
    requires extent > 0
    ensures 0.0 <= r <= (extent - 1) as real
  {
    if v < 0.0 then 0.0 else if v > (extent - 1) as real then (extent - 1) as real else v
  }

  function Fraction(v: real, extent: nat): (r: real)
    requires extent > 0
    ensures 0.0 <= r < 1.0
  {
    Clamped(v, extent) - Low(v, extent) as real
  }

  function Blend(a: real, b: real, t: real): real {
    a * (1.0 - t) + b * t
  }

  /** Bilinear sampling; coordinates outside the image are clamped to its edge. */
  function Sample(image: View, limits: Limits, sx: real, sy: real, colour: nat): real
    requires Sound(image, limits) && colour < 3
  {
    var x0, x1, dx := Low(sx, image.width), High(sx, image.width), Fraction(sx, image.width);
    var y0, y1, dy := Low(sy, image.height), High(sy, image.height), Fraction(sy, image.height);
    Blend(Blend(Pixel(image, limits, x0, y0, colour), Pixel(image, limits, x1, y0, colour), dx),
          Blend(Pixel(image, limits, x0, y1, colour), Pixel(image, limits, x1, y1, colour), dx), dy)
  }

  lemma BlendRange(a: real, b: real, t: real, lo: real, hi: real)
    requires lo <= a <= hi && lo <= b <= hi && 0.0 <= t <= 1.0
    ensures lo <= Blend(a, b, t) <= hi
  {
    var s := 1.0 - t;
    NonNegativeProduct(a - lo, s);
    NonNegativeProduct(b - lo, t);
    NonNegativeProduct(hi - a, s);
    NonNegativeProduct(hi - b, t);
    assert (a - lo) * s + (b - lo) * t == Blend(a, b, t) - lo;
    assert (hi - a) * s + (hi - b) * t == hi - Blend(a, b, t);
  }

  /** A sample lies in the range of bytes. */
  lemma SampleRange(image: View, limits: Limits, sx: real, sy: real, colour: nat)
    requires Sound(image, limits) && colour < 3
    ensures 0.0 <= Sample(image, limits, sx, sy, colour) <= 255.0
  {
    hide Pixel, Blend, Low, High, Fraction;
    var x0, x1, dx := Low(sx, image.width), High(sx, image.width), Fraction(sx, image.width);
    var y0, y1, dy := Low(sy, image.height), High(sy, image.height), Fraction(sy, image.height);
    var p00, p10 := Pixel(image, limits, x0, y0, colour), Pixel(image, limits, x1, y0, colour);
    var p01, p11 := Pixel(image, limits, x0, y1, colour), Pixel(image, limits, x1, y1, colour);
    BlendRange(p00, p10, dx, 0.0, 255.0);
    BlendRange(p01, p11, dx, 0.0, 255.0);
    BlendRange(Blend(p00, p10, dx), Blend(p01, p11, dx), dy, 0.0, 255.0);
  }

  /** At a pixel's own coordinates the sample is that pixel. */
  lemma SampleAtPixel(image: View, limits: Limits, x: nat, y: nat, colour: nat)
    requires Sound(image, limits) && colour < 3 && x < image.width && y < image.height
    ensures Sample(image, limits, x as real, y as real, colour) == Pixel(image, limits, x, y, colour)
  {
    hide Pixel, Blend, Low, High, Fraction;
    AtPixel(x, image.width);
    AtPixel(y, image.height);
    forall a, b ensures Blend(a, b, 0.0) == a {
      BlendNothing(a, b);
    }
  }

  lemma AtPixel(i: nat, extent: nat)
    requires i < extent
    ensures Low(i as real, extent) == i && Fraction(i as real, extent) == 0.0
  {
  }

  lemma BlendNothing(a: real, b: real)
    ensures Blend(a, b, 0.0) == a
  {
  }

  // ---------------------------------------------------------------- the tensor

  /** Where colour plane c holds pixel (x, y). */
  function Index(spec: InputSpec, c: nat, y: nat, x: nat): nat {
    c * (spec.width * spec.height) + (y * spec.width + x)
  }

  predicate InTensor(spec: InputSpec, c: nat, y: nat, x: nat) {
    c < 3 && y < spec.height && x < spec.width
  }

  lemma IndexFits(spec: InputSpec, c: nat, y: nat, x: nat)
    requires InTensor(spec, c, y, x)
    ensures Index(spec, c, y, x) < 3 * (spec.width * spec.height)
    ensures y * spec.width + x < spec.width * spec.height
  {
    var plane := spec.width * spec.height;
    assert (y + 1) * spec.width == y * spec.width + spec.width;
    RowsBefore(y + 1, spec.height, spec.width);
    assert spec.height * spec.width == plane;
    RowsBefore(c + 1, 3, plane);
    assert (c + 1) * plane == c * plane + plane;
  }

  /** Different places have different indices. */
  lemma IndexInjective(spec: InputSpec, c: nat, y: nat, x: nat, c': nat, y': nat, x': nat)
    requires InTensor(spec, c, y, x) && InTensor(spec, c', y', x') && Index(spec, c, y, x) == Index(spec, c', y', x')
    ensures c == c' && y == y' && x == x'
  {
    hide *;
    var plane := spec.width * spec.height;
    var base, row, i := InPlane(spec, c, y, x, plane);
    var base', row', i' := InPlane(spec, c', y', x', plane);
    SameQuotient(c, base, i, c', base', i', plane);
    SameQuotient(y, row, x, y', row', x', spec.width);
  }

  /** The start of the colour plane, of the row in it, and the place in the plane. */
  lemma InPlane(spec: InputSpec, c: nat, y: nat, x: nat, plane: nat) returns (base: nat, row: nat, i: nat)
    requires InTensor(spec, c, y, x) && plane == spec.width * spec.height
    ensures base == c * plane && row == y * spec.width && i == row + x < plane
    ensures Index(spec, c, y, x) == base + i && x < spec.width
  {
    IndexFits(spec, c, y, x);
    base, row, i := c * plane, y * spec.width, y * spec.width + x;
  }

  /** Quotient and remainder are determined; the multiples are passed along to keep the arithmetic linear. */
  lemma SameQuotient(q: nat, multiple: nat, r: nat, q': nat, multiple': nat, r': nat, d: nat)
    requires multiple == q * d && multiple' == q' * d && r < d && r' < d && multiple + r == multiple' + r'
    ensures q == q' && r == r'
  {
    if q < q' {
      QuotientsOrdered(q, multiple, r, q', multiple', d);
    } else if q' < q {
      QuotientsOrdered(q', multiple', r', q, multiple, d);
    }
  }

  lemma QuotientsOrdered(q: nat, multiple: nat, r: nat, q': nat, multiple': nat, d: nat)
    requires q < q' && r < d && multiple == q * d && multiple' == q' * d
    ensures multiple + r < multiple'
  {
    RowsBefore(q + 1, q', d);
    assert (q + 1) * d == q * d + d;
  }

  predicate InPicture(m: Metadata, y: nat, x: nat) {
    m.padTop <= y < m.padTop + m.resizedHeight && m.padLeft <= x < m.padLeft + m.resizedWidth
  }

  /** The finished tensor's value: the normalized sample inside the resized picture, normalized padding elsewhere. */
  function TensorValue(image: View, limits: Limits, spec: InputSpec, m: Metadata, c: nat, y: nat, x: nat): real
    requires Sound(image, limits) && c < 3 && m.resizedWidth > 0 && m.resizedHeight > 0
  {
    if InPicture(m, y, x) then
      Sample(image, limits, SampledAt(image.width, m.resizedWidth, x - m.padLeft) - 0.5,
             SampledAt(image.height, m.resizedHeight, y - m.padTop) - 0.5, c) * spec.scale
    else spec.padValue * spec.scale
  }

  /** Row by row, the first ny rows of the picture and nx pixels of the next are written. */
  predicate Reached(m: Metadata, y: nat, x: nat, ny: nat, nx: nat) {
    InPicture(m, y, x) && (y - m.padTop < ny || (y - m.padTop == ny && x - m.padLeft < nx))
  }

  ghost predicate Filled(image: View, limits: Limits, spec: InputSpec, m: Metadata, tensor: seq<real>, ny: nat, nx: nat)
    requires Sound(image, limits) && m.resizedWidth > 0 && m.resizedHeight > 0
  {
    && |tensor| == 3 * (spec.width * spec.height)
    && forall c: nat, y: nat, x: nat | InTensor(spec, c, y, x) :: CellIs(image, limits, spec, m, tensor, ny, nx, c, y, x)
  }

  ghost predicate CellIs(image: View, limits: Limits, spec: InputSpec, m: Metadata, tensor: seq<real>, ny: nat, nx: nat,
                         c: nat, y: nat, x: nat)
    requires Sound(image, limits) && c < 3 && m.resizedWidth > 0 && m.resizedHeight > 0
  {
    && Index(spec, c, y, x) < |tensor|
    && tensor[Index(spec, c, y, x)]
       == if Reached(m, y, x, ny, nx) then TensorValue(image, limits, spec, m, c, y, x) else spec.padValue * spec.scale
  }

  /** The tensor holds exactly the letterboxed image. */
  ghost predicate IsLetterboxed(image: View, limits: Limits, spec: InputSpec, m: Metadata, tensor: seq<real>)
    requires Sound(image, limits) && m.resizedWidth > 0 && m.resizedHeight > 0
  {
    && |tensor| == 3 * (spec.width * spec.height)
    && forall c: nat, y: nat, x: nat | InTensor(spec, c, y, x) ::
         Index(spec, c, y, x) < |tensor|
         && tensor[Index(spec, c, y, x)] == TensorValue(image, limits, spec, m, c, y, x)
  }

  lemma PixelWritten(image: View, limits: Limits, spec: InputSpec, m: Metadata, before: seq<real>, after: seq<real>,
                     ny: nat, nx: nat, r: real, g: real, b: real)
    requires Sound(image, limits) && m.resizedWidth > 0 && m.resizedHeight > 0 && ny < m.resizedHeight && nx < m.resizedWidth
    requires m.padLeft + m.resizedWidth <= spec.width && m.padTop + m.resizedHeight <= spec.height
    requires Filled(image, limits, spec, m, before, ny, nx) && |after| == |before|
    requires var y, x := m.padTop + ny, m.padLeft + nx;
      && r == TensorValue(image, limits, spec, m, 0, y, x) && g == TensorValue(image, limits, spec, m, 1, y, x)
      && b == TensorValue(image, limits, spec, m, 2, y, x)
      && Index(spec, 0, y, x) < |after| && Index(spec, 1, y, x) < |after| && Index(spec, 2, y, x) < |after|
      && after == before[Index(spec, 0, y, x) := r][Index(spec, 1, y, x) := g][Index(spec, 2, y, x) := b]
    ensures Filled(image, limits, spec, m, after, ny, nx + 1)
  {
    hide TensorValue, Index, Sound;
    var py, px := m.padTop + ny, m.padLeft + nx;
    forall c: nat, y: nat, x: nat | InTensor(spec, c, y, x)
      ensures CellIs(image, limits, spec, m, after, ny, nx + 1, c, y, x)
    {
      assert CellIs(image, limits, spec, m, before, ny, nx, c, y, x);
      Elsewhere(spec, c, y, x, py, px);
      IndexFits(spec, c, y, x);
    }
  }

  /** Which of a pixel's three cells a place is, if any. */
  lemma Elsewhere(spec: InputSpec, c: nat, y: nat, x: nat, py: nat, px: nat)
    requires InTensor(spec, c, y, x) && InTensor(spec, 0, py, px)
    ensures forall k: nat | k < 3 :: Index(spec, c, y, x) == Index(spec, k, py, px) <==> c == k && y == py && x == px
  {
    hide Index;
    forall k: nat | k < 3 ensures Index(spec, c, y, x) == Index(spec, k, py, px) <==> c == k && y == py && x == px {
      if Index(spec, c, y, x) == Index(spec, k, py, px) {
        IndexInjective(spec, c, y, x, k, py, px);
      }
    }
  }

  lemma NextRow(image: View, limits: Limits, spec: InputSpec, m: Metadata, tensor: seq<real>, ny: nat)
    requires Sound(image, limits) && m.resizedWidth > 0 && m.resizedHeight > 0
    requires Filled(image, limits, spec, m, tensor, ny, m.resizedWidth)
    ensures Filled(image, limits, spec, m, tensor, ny + 1, 0)
  {
    hide TensorValue, Index, Sound;
    forall c: nat, y: nat, x: nat | InTensor(spec, c, y, x) ensures CellIs(image, limits, spec, m, tensor, ny + 1, 0, c, y, x) {
      assert CellIs(image, limits, spec, m, tensor, ny, m.resizedWidth, c, y, x);
    }
  }

  lemma AllFilled(image: View, limits: Limits, spec: InputSpec, m: Metadata, tensor: seq<real>)
    requires Sound(image, limits) && m.resizedWidth > 0 && m.resizedHeight > 0
    requires Filled(image, limits, spec, m, tensor, m.resizedHeight, 0)
    ensures IsLetterboxed(image, limits, spec, m, tensor)
  {
    hide Index, Sound, Sample, SampledAt;
    forall c: nat, y: nat, x: nat | InTensor(spec, c, y, x)
      ensures Index(spec, c, y, x) < |tensor| && tensor[Index(spec, c, y, x)] == TensorValue(image, limits, spec, m, c, y, x)
    {
      assert CellIs(image, limits, spec, m, tensor, m.resizedHeight, 0, c, y, x);
    }
  }

  lemma AllPadding(image: View, limits: Limits, spec: InputSpec, m: Metadata, tensor: seq<real>)
    requires Sound(image, limits) && m.resizedWidth > 0 && m.resizedHeight > 0
    requires |tensor| == 3 * (spec.width * spec.height) && forall i | 0 <= i < |tensor| :: tensor[i] == spec.padValue * spec.scale
    ensures Filled(image, limits, spec, m, tensor, 0, 0)
  {
    hide TensorValue, Index, Sound;
    forall c: nat, y: nat, x: nat | InTensor(spec, c, y, x) ensures CellIs(image, limits, spec, m, tensor, 0, 0, c, y, x) {
      IndexFits(spec, c, y, x);
    }
  }

  /** Fills the tensor of a validated image; a tensor of the wrong size is refused. */
  method PreprocessInto(image: View, limits: Limits, spec: InputSpec, output: array<real>) returns (r: Result<Metadata>)
    requires spec.Valid() && Sound(image, limits)
    modifies output
    ensures r.Success? <==> output.Length == 3 * (spec.width * spec.height)
    ensures r.Failure? ==> r.error == InvalidImage && output[..] == old(output[..])
    ensures r.Success? ==> r.value == MakeMetadata(image.width, image.height, spec)
    ensures r.Success? ==> r.value.resizedWidth > 0 && r.value.resizedHeight > 0
    ensures r.Success? ==> IsLetterboxed(image, limits, spec, r.value, output[..])
  {
    hide *;
    if output.Length != 3 * (spec.width * spec.height) {
      return Failure(InvalidImage);
    }
    NotEmpty(image, limits);
    MetadataFacts(image.width, image.height, spec);
    var m := MakeMetadata(image.width, image.height, spec);
    var padding := spec.padValue * spec.scale;
    for i := 0 to output.Length
      invariant forall j | 0 <= j < i :: output[j] == padding
    {
      output[i] := padding;
    }
    AllPadding(image, limits, spec, m, output[..]);
    for ny := 0 to m.resizedHeight
      invariant Filled(image, limits, spec, m, output[..], ny, 0)
    {
      var sourceY := SampledAt(image.height, m.resizedHeight, ny) - 0.5;
      var outputY := m.padTop + ny;
      for nx := 0 to m.resizedWidth
        invariant Filled(image, limits, spec, m, output[..], ny, nx)
      {
        var sourceX := SampledAt(image.width, m.resizedWidth, nx) - 0.5;
        var outputX := m.padLeft + nx;
        WritePixel(image, limits, spec, m, output, ny, nx, sourceX, sourceY, outputX, outputY);
      }
      NextRow(image, limits, spec, m, output[..], ny);
    }
    AllFilled(image, limits, spec, m, output[..]);
    r := Success(m);
  }

  lemma NotEmpty(image: View, limits: Limits)
    requires Sound(image, limits)
    ensures image.width > 0 && image.height > 0
  {
  }

  method WritePixel(image: View, limits: Limits, spec: InputSpec, m: Metadata, output: array<real>, ny: nat, nx: nat,
                    sourceX: real, sourceY: real, outputX: nat, outputY: nat)
    requires Sound(image, limits) && ny < m.resizedHeight && nx < m.resizedWidth
    requires m.padLeft + m.resizedWidth <= spec.width && m.padTop + m.resizedHeight <= spec.height
    requires Filled(image, limits, spec, m, output[..], ny, nx)
    requires outputX == m.padLeft + nx && outputY == m.padTop + ny
    requires sourceX == SampledAt(image.width, m.resizedWidth, nx) - 0.5
    requires sourceY == SampledAt(image.height, m.resizedHeight, ny) - 0.5
    modifies output
    ensures Filled(image, limits, spec, m, output[..], ny, nx + 1)
  {
    hide *;
    var planeSize := spec.width * spec.height;
    var index := outputY * spec.width + outputX;
    PlaneIndices(image, limits, spec, m, output[..], ny, nx, outputY, outputX, planeSize, index);
    ghost var before := output[..];
    var red, green, blue := Sample(image, limits, sourceX, sourceY, 0) * spec.scale,
                            Sample(image, limits, sourceX, sourceY, 1) * spec.scale,
                            Sample(image, limits, sourceX, sourceY, 2) * spec.scale;
    PixelValue(image, limits, spec, m, ny, nx, 0);
    PixelValue(image, limits, spec, m, ny, nx, 1);
    PixelValue(image, limits, spec, m, ny, nx, 2);
    output[index] := red;
    output[planeSize + index] := green;
    output[2 * planeSize + index] := blue;
    PixelWritten(image, limits, spec, m, before, output[..], ny, nx, red, green, blue);
  }

  lemma PlaneIndices(image: View, limits: Limits, spec: InputSpec, m: Metadata, tensor: seq<real>, ny: nat, nx: nat,
                     y: nat, x: nat, plane: nat, index: nat)
    requires Sound(image, limits) && m.resizedWidth > 0 && m.resizedHeight > 0
    requires Filled(image, limits, spec, m, tensor, ny, nx) && y < spec.height && x < spec.width
    requires plane == spec.width * spec.height && index == y * spec.width + x
    ensures index == Index(spec, 0, y, x) && plane + index == Index(spec, 1, y, x) && 2 * plane + index == Index(spec, 2, y, x)
    ensures 2 * plane + index < |tensor|
  {
    IndexFits(spec, 2, y, x);
  }

  lemma PixelValue(image: View, limits: Limits, spec: InputSpec, m: Metadata, ny: nat, nx: nat, c: nat)
    requires Sound(image, limits) && ny < m.resizedHeight && nx < m.resizedWidth && c < 3
    ensures TensorValue(image, limits, spec, m, c, m.padTop + ny, m.padLeft + nx)
         == Sample(image, limits, SampledAt(image.width, m.resizedWidth, nx) - 0.5,
                   SampledAt(image.height, m.resizedHeight, ny) - 0.5, c) * spec.scale
  {
    hide Sample, SampledAt;
  }
}
