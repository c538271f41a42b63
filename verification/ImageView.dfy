/** Strided image views: validation, sub-views, and copying a region. */
module ImageView {
  import opened Outcomes
  import opened Machine

  datatype PixelFormat = Gray8 | Bgr8 | Rgb8

  function Channels(f: PixelFormat): (channels: nat)
    ensures 1 <= channels <= 3
  {
    match f
    case Gray8 => 1
    case Bgr8 => 3
    case Rgb8 => 3
  }

  datatype View = View(bytes: seq<Byte>, width: Size, height: Size, stride: Size, format: PixelFormat)
  {
    /** A span cannot be longer than memory. */
    predicate Representable() {
      |bytes| <= SIZE_MAX
    }

    function RowBytes(): nat {
      width * Channels(format)
    }
  }

  datatype Region = Region(x: Size, y: Size, width: Size, height: Size)

  datatype Limits = Limits(maxWidth: Size, maxHeight: Size, maxBytes: Size)

  datatype Validated = Validated(view: View, channels: nat, rowBytes: nat, requiredBytes: nat)

  // ---------------------------------------------------------------- validation

  function ValidateImage(image: View, limits: Limits): Result<Validated>
    requires image.Representable()
  {
    if image.width == 0 || image.height == 0 then Failure(InvalidImage)
    else if image.bytes == [] then Failure(InvalidImage)
    else if image.width > limits.maxWidth || image.height > limits.maxHeight then Failure(InvalidImage)
    else if |image.bytes| > limits.maxBytes then Failure(InvalidImage)
    else
      var rowBytes :- CheckedMultiply(image.width, Channels(image.format));
      if image.stride < rowBytes then Failure(InvalidImage)
      else
        var lastRow :- CheckedMultiply(image.stride, image.height - 1);
        var required :- CheckedAdd(lastRow, rowBytes);
        if required > |image.bytes| then Failure(InvalidImage)
        else if required > limits.maxBytes then Failure(InvalidImage)
        else Success(Validated(image, Channels(image.format), rowBytes, required))
  }

  /** What validation means, over the unbounded integers. */
  ghost predicate Sound(image: View, limits: Limits) {
    && 0 < image.width <= limits.maxWidth && 0 < image.height <= limits.maxHeight
    && |image.bytes| <= limits.maxBytes
    && image.RowBytes() <= image.stride
    && (image.height - 1) * image.stride + image.RowBytes() <= |image.bytes|
  }

  /** The overflow tests never reject an image that fits, and never let one through that does not. */
  lemma ValidatedExactly(image: View, limits: Limits)
    requires image.Representable()
    ensures ValidateImage(image, limits).Success? <==> Sound(image, limits)
    ensures ValidateImage(image, limits).Failure? ==> ValidateImage(image, limits).error == InvalidImage
  {
    if image.width > 0 && image.height > 0 {
      assert (image.height - 1) * image.stride >= 0;
      assert image.stride * (image.height - 1) == (image.height - 1) * image.stride;
      assert image.RowBytes() >= image.width;
    }
  }

  /** Where channel c of pixel (x, y) lies. */
  function Offset(image: View, x: nat, y: nat, c: nat): int {
    y * image.stride + x * Channels(image.format) + c
  }

  /** Every channel byte of every pixel of a sound image lies in its buffer. */
  lemma PixelsInBuffer(image: View, limits: Limits, x: nat, y: nat, c: nat)
    requires Sound(image, limits) && x < image.width && y < image.height && c < Channels(image.format)
    ensures 0 <= Offset(image, x, y, c) < |image.bytes|
  {
    RowsBefore(y, image.height - 1, image.stride);
    RowsBefore(x, image.width - 1, Channels(image.format));
  }

  lemma RowsBefore(i: nat, last: nat, stride: nat)
    requires i <= last
    ensures 0 <= i * stride <= last * stride
  {
  }

  // ---------------------------------------------------------------- sub-views

  function ValidateRegion(width: Size, height: Size, r: Region): Result<()> {
    if r.width == 0 || r.height == 0 then Failure(InvalidImage)
    else
      var right :- CheckedAdd(r.x, r.width);
      var bottom :- CheckedAdd(r.y, r.height);
      if right > width || bottom > height then Failure(InvalidImage) else Success(())
  }

  function CropBytes(source: View, r: Region): Result<seq<Byte>>
    requires source.Representable() && r.height > 0
  {
    var xOffset :- CheckedMultiply(r.x, Channels(source.format));
    var yOffset :- CheckedMultiply(r.y, source.stride);
    var offset :- CheckedAdd(yOffset, xOffset);
    var rowBytes :- CheckedMultiply(r.width, Channels(source.format));
    var tailOffset :- CheckedMultiply(r.height - 1, source.stride);
    var required :- CheckedAdd(tailOffset, rowBytes);
    if offset > |source.bytes| || required > |source.bytes| - offset then Failure(InvalidImage)
    else Success(source.bytes[offset..offset + required])
  }

  function MakeCropView(source: View, r: Region): Result<View>
    requires source.Representable()
  {
    var valid :- ValidateRegion(source.width, source.height, r);
    var bytes :- CropBytes(source, r);
    Success(View(bytes, r.width, r.height, source.stride, source.format))
  }

  ghost predicate Inside(source: View, r: Region) {
    r.width > 0 && r.height > 0 && r.x + r.width <= source.width && r.y + r.height <= source.height
  }

  lemma RegionExactly(source: View, r: Region)
    ensures ValidateRegion(source.width, source.height, r).Success? <==> Inside(source, r)
  {
  }

  /** The last byte of the region comes no later than the last byte of the image. */
  lemma RegionFits(source: View, limits: Limits, r: Region)
    requires Sound(source, limits) && Inside(source, r)
    ensures var ch := Channels(source.format);
      r.y * source.stride + r.x * ch + ((r.height - 1) * source.stride + r.width * ch) <= |source.bytes|
  {
    var ch := Channels(source.format);
    RowsBefore(r.y + r.height - 1, source.height - 1, source.stride);
    RowsBefore(r.x + r.width, source.width, ch);
    assert (r.y + r.height - 1) * source.stride == r.y * source.stride + (r.height - 1) * source.stride;
    assert (r.x + r.width) * ch == r.x * ch + r.width * ch;
  }

  /** On a validated image a crop succeeds exactly for the non-empty regions inside it: no intermediate overflows. */
  lemma CropExactly(source: View, limits: Limits, r: Region)
    requires source.Representable() && Sound(source, limits)
    ensures MakeCropView(source, r).Success? <==> Inside(source, r)
    ensures Inside(source, r) ==>
      var ch, offset := Channels(source.format), r.y * source.stride + r.x * Channels(source.format);
      && 0 <= offset
      && 0 <= (r.height - 1) * source.stride + r.width * ch
      && offset + ((r.height - 1) * source.stride + r.width * ch) <= |source.bytes|
      && MakeCropView(source, r).value
         == View(source.bytes[offset..offset + ((r.height - 1) * source.stride + r.width * ch)],
                 r.width, r.height, source.stride, source.format)
  {
    hide CheckedMultiply, CheckedAdd, ValidateRegion;
    RegionExactly(source, r);
    if Inside(source, r) {
      RegionFits(source, limits, r);
      NonNegative(r.x, Channels(source.format));
      NonNegative(r.y, source.stride);
      NonNegative(r.width, Channels(source.format));
      NonNegative(r.height - 1, source.stride);
    }
  }

  lemma NonNegative(a: nat, b: nat)
    ensures a * b >= 0
  {
  }

  /** A crop of a validated image passes validation under the same limits, and shows the same pixels. */
  lemma CropIsValid(source: View, limits: Limits, r: Region)
    requires source.Representable() && Sound(source, limits) && Inside(source, r)
    ensures MakeCropView(source, r).Success?
    ensures var crop := MakeCropView(source, r).value;
      crop.Representable() && Sound(crop, limits) && crop.width == r.width && crop.height == r.height
  {
    CropExactly(source, limits, r);
    RowsBefore(r.width, source.width, Channels(source.format));
  }

  lemma CropShowsRegion(source: View, limits: Limits, r: Region, x: nat, y: nat, c: nat)
    requires source.Representable() && Sound(source, limits) && Inside(source, r)
    requires x < r.width && y < r.height && c < Channels(source.format)
    ensures MakeCropView(source, r).Success?
    ensures var crop := MakeCropView(source, r).value;
      && 0 <= Offset(crop, x, y, c) < |crop.bytes|
      && 0 <= Offset(source, r.x + x, r.y + y, c) < |source.bytes|
      && crop.bytes[Offset(crop, x, y, c)] == source.bytes[Offset(source, r.x + x, r.y + y, c)]
  {
    hide MakeCropView, Sound, Channels, Offset, View.Representable;
    CropExactly(source, limits, r);
    CropIsValid(source, limits, r);
    var crop := MakeCropView(source, r).value;
    PixelsInBuffer(crop, limits, x, y, c);
    PixelsInBuffer(source, limits, r.x + x, r.y + y, c);
    SameByte(source, crop, r.x, r.y, x, y, c);
  }

  lemma SameByte(source: View, crop: View, left: nat, top: nat, x: nat, y: nat, c: nat)
    requires crop.stride == source.stride && crop.format == source.format
    ensures Offset(source, left + x, top + y, c)
         == (top * source.stride + left * Channels(source.format)) + Offset(crop, x, y, c)
  {
    hide Channels;
    var ch := Channels(source.format);
    assert (top + y) * source.stride == top * source.stride + y * source.stride;
    assert (left + x) * ch == left * ch + x * ch;
  }

  // ---------------------------------------------------------------- copying a region

  /** What a copy needs of its destination. */
  ghost predicate Accepts(length: nat, width: Size, height: Size, stride: Size, format: PixelFormat, r: Region, source: View) {
    && width == r.width && height == r.height && format == source.format
    && r.width * Channels(format) <= stride
    && (height - 1) * stride + r.width * Channels(format) <= length
  }

  /** Row y of the destination holds row y of the region; n rows are done. */
  ghost predicate RowsCopied(source: View, r: Region, destination: seq<Byte>, stride: nat, n: nat) {
    forall y: nat, b: nat | y < n && b < r.width * Channels(source.format) ::
      CopiedAt(source, r, destination, stride, y, b)
  }

  ghost predicate CopiedAt(source: View, r: Region, destination: seq<Byte>, stride: nat, y: nat, b: nat) {
    var from, to := (r.y + y) * source.stride + r.x * Channels(source.format) + b, y * stride + b;
    0 <= from < |source.bytes| && 0 <= to < |destination| && destination[to] == source.bytes[from]
  }

  /** The bytes of the destination's first n rows; bytes beyond a row's width are padding. */
  predicate InRows(stride: nat, rowBytes: nat, n: nat, i: nat) {
    exists y: nat :: y < n && RowHas(stride, rowBytes, y, i)
  }

  predicate RowHas(stride: nat, rowBytes: nat, y: nat, i: nat) {
    y * stride <= i < y * stride + rowBytes
  }

  lemma RowsApart(y: nat, n: nat, b: nat, rowBytes: nat, stride: nat)
    requires y < n && b < rowBytes <= stride
    ensures y * stride + b < n * stride
  {
    RowsBefore(y + 1, n, stride);
    assert (y + 1) * stride == y * stride + stride;
  }

  /** One row more. */
  lemma RowCopied(source: View, r: Region, crop: seq<Byte>, before: seq<Byte>, after: seq<Byte>, stride: nat, y: nat, offset: nat)
    requires RowsCopied(source, r, before, stride, y) && |before| == |after|
    requires r.width * Channels(source.format) <= stride
    requires var rowBytes, base := r.width * Channels(source.format), y * stride;
      && 0 <= base && base + rowBytes <= |after|
      && 0 <= y * source.stride && y * source.stride + rowBytes <= |crop|
      && after[base..base + rowBytes] == crop[y * source.stride..y * source.stride + rowBytes]
      && (forall i | 0 <= i < |after| && !(base <= i < base + rowBytes) :: after[i] == before[i])
    requires offset == r.y * source.stride + r.x * Channels(source.format)
    requires offset + |crop| <= |source.bytes| && crop == source.bytes[offset..offset + |crop|]
    ensures RowsCopied(source, r, after, stride, y + 1)
  {
    hide Channels, CopiedAt;
    var rowBytes := r.width * Channels(source.format);
    forall k: nat, b: nat | k < y + 1 && b < rowBytes ensures CopiedAt(source, r, after, stride, k, b) {
      if k < y {
        assert CopiedAt(source, r, before, stride, k, b);
        EarlierRowKept(source, r, before, after, stride, y, rowBytes, k, b);
      } else {
        NewRowByte(source, r, crop, after, stride, y, offset, rowBytes, b);
      }
    }
  }

  lemma EarlierRowKept(source: View, r: Region, before: seq<Byte>, after: seq<Byte>, stride: nat, y: nat, rowBytes: nat,
                       k: nat, b: nat)
    requires CopiedAt(source, r, before, stride, k, b) && |before| == |after| && k < y && b < rowBytes <= stride
    requires forall i | 0 <= i < |after| && !(y * stride <= i < y * stride + rowBytes) :: after[i] == before[i]
    ensures CopiedAt(source, r, after, stride, k, b)
  {
    hide Channels;
    RowsApart(k, y, b, rowBytes, stride);
  }

  lemma NewRowByte(source: View, r: Region, crop: seq<Byte>, after: seq<Byte>, stride: nat, y: nat, offset: nat, rowBytes: nat,
                   b: nat)
    requires b < rowBytes && 0 <= y * stride && y * stride + rowBytes <= |after|
    requires 0 <= y * source.stride && y * source.stride + rowBytes <= |crop|
    requires after[y * stride..y * stride + rowBytes] == crop[y * source.stride..y * source.stride + rowBytes]
    requires offset == r.y * source.stride + r.x * Channels(source.format)
    requires offset + |crop| <= |source.bytes| && crop == source.bytes[offset..offset + |crop|]
    ensures CopiedAt(source, r, after, stride, y, b)
  {
    hide Channels;
    var to, from := y * stride, y * source.stride;
    assert (r.y + y) * source.stride == r.y * source.stride + from;
    assert after[to + b] == after[to..to + rowBytes][b] == crop[from..from + rowBytes][b] == crop[from + b];
    assert crop[from + b] == source.bytes[offset + (from + b)];
  }

  /**
   * Copies a region row by row. On success every byte of the region is in its place and the destination's row padding
   * is untouched; otherwise nothing is written.
   */
  method CopyCrop(source: View, r: Region, destination: array<Byte>, width: Size, height: Size, stride: Size,
                  format: PixelFormat)
    returns (result: Result<()>)
    requires source.Representable() && destination.Length <= SIZE_MAX
    modifies destination
    ensures result.Success? <==>
      MakeCropView(source, r).Success? && Accepts(destination.Length, width, height, stride, format, r, source)
    ensures result.Failure? ==> result.error == InvalidImage && destination[..] == old(destination[..])
    ensures result.Success? ==> RowsCopied(source, r, destination[..], stride, height)
    ensures result.Success? ==> forall i | 0 <= i < destination.Length
              && !InRows(stride, r.width * Channels(format), height, i) :: destination[i] == old(destination[i])
  {
    hide Channels, RowsCopied, InRows, ValidateRegion, CropBytes, CheckedMultiply, CheckedAdd, Inside;
    CropFacts(source, r);
    var crop := MakeCropView(source, r);
    if crop.Failure? {
      return Failure(InvalidImage);
    }
    if width != crop.value.width || height != crop.value.height || format != crop.value.format {
      return Failure(InvalidImage);
    }
    var rowBytes := CheckedMultiply(crop.value.width, Channels(format));
    if rowBytes.Failure? || stride < rowBytes.value {
      return Failure(InvalidImage);
    }
    var tail := CheckedMultiply(height - 1, stride);
    if tail.Failure? {
      TooTall(height, stride, rowBytes.value, destination.Length);
      return Failure(InvalidImage);
    }
    var required := CheckedAdd(tail.value, rowBytes.value);
    if required.Failure? || required.value > destination.Length {
      return Failure(InvalidImage);
    }
    CopyRows(source, r, crop.value, destination, stride, rowBytes.value);
    result := Success(());
  }

  lemma TooTall(height: nat, stride: nat, rowBytes: nat, length: nat)
    requires height > 0 && (height - 1) * stride > SIZE_MAX && length <= SIZE_MAX
    ensures (height - 1) * stride + rowBytes > length
  {
  }

  /** What a successful crop consists of. */
  ghost predicate CropsTo(source: View, r: Region, crop: View) {
    && r.height > 0 && crop.width == r.width && crop.height == r.height
    && crop.stride == source.stride && crop.format == source.format
    && var offset := r.y * source.stride + r.x * Channels(source.format);
       && 0 <= offset && offset + |crop.bytes| <= |source.bytes|
       && crop.bytes == source.bytes[offset..offset + |crop.bytes|]
       && |crop.bytes| == (r.height - 1) * source.stride + r.width * Channels(source.format)
  }

  lemma CropFacts(source: View, r: Region)
    requires source.Representable()
    ensures MakeCropView(source, r).Success? ==> CropsTo(source, r, MakeCropView(source, r).value)
    ensures MakeCropView(source, r).Success? ==> r.width * Channels(source.format) <= SIZE_MAX
    ensures MakeCropView(source, r).Failure? ==> MakeCropView(source, r).error == InvalidImage
  {
    hide Channels, CheckedMultiply, CheckedAdd;
  }

  method CopyRows(source: View, r: Region, crop: View, destination: array<Byte>, stride: nat, rowBytes: nat)
    requires CropsTo(source, r, crop) && rowBytes == r.width * Channels(source.format) <= stride
    requires (r.height - 1) * stride + rowBytes <= destination.Length
    modifies destination
    ensures RowsCopied(source, r, destination[..], stride, r.height)
    ensures forall i | 0 <= i < destination.Length && !InRows(stride, rowBytes, r.height, i) :: destination[i] == old(destination[i])
  {
    hide Channels, RowsCopied, CropsTo, InRows;
    ghost var offset := CropOffset(source, r, crop);
    NoRows(source, r, destination[..], stride);
    for y := 0 to r.height
      invariant RowsCopied(source, r, destination[..], stride, y)
      invariant forall i | 0 <= i < destination.Length && !InRows(stride, rowBytes, r.height, i) ::
        destination[i] == old(destination[i])
    {
      RowsBefore(y, r.height - 1, stride);
      RowsBefore(y, r.height - 1, source.stride);
      var base, from := y * stride, y * crop.stride;
      ghost var before := destination[..];
      forall b | 0 <= b < rowBytes {
        destination[base + b] := crop.bytes[from + b];
      }
      forall i | 0 <= i < destination.Length && !InRows(stride, rowBytes, r.height, i) ensures !(base <= i < base + rowBytes) {
        OutsideRow(stride, rowBytes, r.height, y, i);
      }
      assert destination[base..base + rowBytes] == crop.bytes[from..from + rowBytes];
      RowCopied(source, r, crop.bytes, before, destination[..], stride, y, offset);
    }
  }

  lemma OutsideRow(stride: nat, rowBytes: nat, n: nat, y: nat, i: nat)
    requires y < n && !InRows(stride, rowBytes, n, i)
    ensures !(y * stride <= i < y * stride + rowBytes)
  {
    assert !RowHas(stride, rowBytes, y, i);
  }

  lemma CropOffset(source: View, r: Region, crop: View) returns (offset: nat)
    requires CropsTo(source, r, crop)
    ensures offset == r.y * source.stride + r.x * Channels(source.format)
    ensures offset + |crop.bytes| <= |source.bytes| && crop.bytes == source.bytes[offset..offset + |crop.bytes|]
    ensures |crop.bytes| == (r.height - 1) * source.stride + r.width * Channels(source.format)
    ensures crop.stride == source.stride && crop.format == source.format && r.height > 0
  {
    offset := r.y * source.stride + r.x * Channels(source.format);
  }

  lemma NoRows(source: View, r: Region, destination: seq<Byte>, stride: nat)
    ensures RowsCopied(source, r, destination, stride, 0)
  {
  }
}
