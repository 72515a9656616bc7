/** Output geometry of generated images: exact ratio fitting, and crop, pad and resize over a
    pixel buffer. */
module OutputGeometry {
  import opened Options

  const MAX_PIXELS := 16000000
  const MAX_UINT64 := 0xffff_ffff_ffff_ffff
  const MAX_INT := 0x7fff_ffff_ffff_ffff

  datatype Fit = Crop | Pad

  datatype Fault = InvalidOptions | TooLarge

  datatype Fitted = Fitted(width: nat, height: nat) | Refused(fault: Fault)

  // ---- exact ratio arithmetic ----

  /** The sign of width : height against the ratio, by cross multiplication. */
  function CompareRatio(width: nat, height: nat, ratioWidth: nat, ratioHeight: nat): int {
    width * ratioHeight - height * ratioWidth
  }

  function ScaledFloor(value: nat, numerator: nat, denominator: nat): nat
    requires denominator > 0
  {
    Narrowed(Quotient(value * numerator, denominator))
  }

  function Quotient(n: nat, d: nat): nat
    requires d > 0
  {
    n / d
  }

  /** Zero stands for a value that a 64-bit word cannot hold. */
  function Narrowed(q: nat): nat {
    if q > MAX_UINT64 then 0 else q
  }

  function ScaledCeil(value: nat, numerator: nat, denominator: nat): nat
    requires denominator > 0
  {
    Narrowed(Quotient(value * numerator + (denominator - 1), denominator))
  }

  function FitDimensions(inputWidth: nat, inputHeight: nat, ratioWidth: nat, ratioHeight: nat, fit: Fit): (r: Fitted)
  {
    if ratioWidth == 0 || ratioHeight == 0 then Refused(InvalidOptions)
    else
      var comparison := CompareRatio(inputWidth, inputHeight, ratioWidth, ratioHeight);
      var (width, height) :=
        if comparison == 0 then (inputWidth, inputHeight)
        else if comparison > 0 then
          if fit == Crop then (ScaledFloor(inputHeight, ratioWidth, ratioHeight), inputHeight)
          else (inputWidth, ScaledCeil(inputWidth, ratioHeight, ratioWidth))
        else if fit == Crop then (inputWidth, ScaledFloor(inputWidth, ratioHeight, ratioWidth))
        else (ScaledCeil(inputHeight, ratioWidth, ratioHeight), inputHeight);
      if width == 0 || height == 0 then Refused(InvalidOptions)
      else if width > MAX_INT || height > MAX_INT then Refused(TooLarge)
      else if width > MAX_PIXELS / height then Refused(TooLarge)
      else Fitted(width, height)
  }

  lemma FloorBounds(n: nat, d: nat)
    requires d > 0
    ensures Quotient(n, d) * d <= n < (Quotient(n, d) + 1) * d
  {
    assert n == n / d * d + n % d;
  }

  lemma CeilBounds(n: nat, d: nat)
    requires d > 0
    ensures var q := Quotient(n + (d - 1), d); n <= q * d < n + d
  {
    FloorBounds(n + (d - 1), d);
    var q := Quotient(n + (d - 1), d);
    assert (q + 1) * d == q * d + d;
  }

  /** The check by division is the check of the product. */
  lemma WithinPixels(width: nat, height: nat)
    requires height > 0
    ensures width > MAX_PIXELS / height <==> width * height > MAX_PIXELS
  {
    FloorBounds(MAX_PIXELS, height);
    var q := Quotient(MAX_PIXELS, height);
    if width > q {
      assert width * height >= (q + 1) * height by {
        Grows(q + 1, width, height);
      }
    } else {
      Grows(width, q, height);
    }
  }

  lemma Grows(a: nat, b: nat, c: nat)
    requires a <= b
    ensures a * c <= b * c
  {
  }

  lemma Smaller(a: nat, b: nat, d: nat)
    requires a * d <= b * d && d > 0
    ensures a <= b
  {
    if a > b {
      Grows(b + 1, a, d);
    }
  }

  /** A picture wider than the ratio loses width and one narrower loses height, down to the largest
      size not beyond the ratio; a picture of the ratio stays as it is. */
  predicate CropFits(inputWidth: nat, inputHeight: nat, ratioWidth: nat, ratioHeight: nat, width: nat, height: nat) {
    var comparison := CompareRatio(inputWidth, inputHeight, ratioWidth, ratioHeight);
    && (comparison >= 0 ==> height == inputHeight) && (comparison <= 0 ==> width == inputWidth)
    && (comparison > 0 ==>
          width <= inputWidth && width * ratioHeight <= inputHeight * ratioWidth < (width + 1) * ratioHeight)
    && (comparison < 0 ==>
          height <= inputHeight && height * ratioWidth <= inputWidth * ratioHeight < (height + 1) * ratioWidth)
  }

  /** A picture wider than the ratio gains height and one narrower gains width, up to the smallest
      size not short of the ratio; a picture of the ratio stays as it is. */
  predicate PadFits(inputWidth: nat, inputHeight: nat, ratioWidth: nat, ratioHeight: nat, width: nat, height: nat) {
    var comparison := CompareRatio(inputWidth, inputHeight, ratioWidth, ratioHeight);
    && (comparison >= 0 ==> width == inputWidth) && (comparison <= 0 ==> height == inputHeight)
    && (comparison > 0 ==>
          && height >= inputHeight
          && inputWidth * ratioHeight <= height * ratioWidth < inputWidth * ratioHeight + ratioWidth)
    && (comparison < 0 ==>
          && width >= inputWidth
          && inputHeight * ratioWidth <= width * ratioHeight < inputHeight * ratioWidth + ratioHeight)
  }

  /** A crop is the widest not wider than the ratio, or the tallest not narrower. */
  lemma CropIsLargest(w: nat, h: nat, rw: nat, rh: nat, width: nat, height: nat, other: nat)
    requires rw > 0 && rh > 0 && CropFits(w, h, rw, rh, width, height)
    ensures CompareRatio(w, h, rw, rh) > 0 ==> (CompareRatio(other, h, rw, rh) <= 0 <==> other <= width)
    ensures CompareRatio(w, h, rw, rh) < 0 ==> (CompareRatio(w, other, rw, rh) >= 0 <==> other <= height)
  {
    if CompareRatio(w, h, rw, rh) > 0 {
      AtMostFloor(other, width, rh, h * rw);
    } else if CompareRatio(w, h, rw, rh) < 0 {
      AtMostFloor(other, height, rw, w * rh);
    }
  }

  lemma AtMostFloor(other: nat, q: nat, d: nat, n: nat)
    requires q * d <= n < (q + 1) * d
    ensures other * d <= n <==> other <= q
  {
    if other <= q {
      Grows(other, q, d);
    } else {
      Grows(q + 1, other, d);
    }
  }

  /** A pad is the shortest not wider than the ratio, or the narrowest not narrower. */
  lemma PadIsSmallest(w: nat, h: nat, rw: nat, rh: nat, width: nat, height: nat, other: nat)
    requires rw > 0 && rh > 0 && PadFits(w, h, rw, rh, width, height)
    ensures CompareRatio(w, h, rw, rh) > 0 ==> (CompareRatio(w, other, rw, rh) <= 0 <==> other >= height)
    ensures CompareRatio(w, h, rw, rh) < 0 ==> (CompareRatio(other, h, rw, rh) >= 0 <==> other >= width)
  {
    if CompareRatio(w, h, rw, rh) > 0 {
      AtLeastCeil(other, height, rw, w * rh);
    } else if CompareRatio(w, h, rw, rh) < 0 {
      AtLeastCeil(other, width, rh, h * rw);
    }
  }

  lemma AtLeastCeil(other: nat, q: nat, d: nat, n: nat)
    requires n <= q * d < n + d
    ensures other * d >= n <==> other >= q
  {
    if other >= q {
      Grows(q, other, d);
    } else {
      Grows(other + 1, q, d);
      assert (other + 1) * d == other * d + d;
    }
  }

  lemma NotAbove(q: nat, n: nat, d: nat, input: nat)
    requires d > 0 && q * d <= n && n < input * d
    ensures q <= input
  {
    Smaller(q, input, d);
  }

  /** A quotient below the input is not lost to the word size. */
  lemma FloorBelowInput(n: nat, d: nat, input: nat)
    requires d > 0 && n < input * d && input <= MAX_UINT64
    ensures var q := Narrowed(Quotient(n, d)); q <= input && q * d <= n < (q + 1) * d
  {
    FloorBounds(n, d);
    NotAbove(Quotient(n, d), n, d, input);
  }

  lemma CropWidth(w: nat, h: nat, rw: nat, rh: nat)
    requires rw > 0 && rh > 0 && CompareRatio(w, h, rw, rh) > 0 && w <= MAX_UINT64
    ensures var width := ScaledFloor(h, rw, rh); width <= w && width * rh <= h * rw < (width + 1) * rh
  {
    FloorBelowInput(h * rw, rh, w);
  }

  lemma CropHeight(w: nat, h: nat, rw: nat, rh: nat)
    requires rw > 0 && rh > 0 && CompareRatio(w, h, rw, rh) < 0 && h <= MAX_UINT64
    ensures var height := ScaledFloor(w, rh, rw); height <= h && height * rw <= w * rh < (height + 1) * rw
  {
    FloorBelowInput(w * rh, rw, h);
  }

  lemma PadHeight(w: nat, h: nat, rw: nat, rh: nat)
    requires rw > 0 && rh > 0 && CompareRatio(w, h, rw, rh) > 0 && ScaledCeil(w, rh, rw) > 0
    ensures var height := ScaledCeil(w, rh, rw); height >= h && w * rh <= height * rw < w * rh + rw
  {
    CeilBounds(w * rh, rw);
    Smaller(h, ScaledCeil(w, rh, rw), rw);
  }

  lemma PadWidth(w: nat, h: nat, rw: nat, rh: nat)
    requires rw > 0 && rh > 0 && CompareRatio(w, h, rw, rh) < 0 && ScaledCeil(h, rw, rh) > 0
    ensures var width := ScaledCeil(h, rw, rh); width >= w && h * rw <= width * rh < h * rw + rh
  {
    CeilBounds(h * rw, rh);
    Smaller(w, ScaledCeil(h, rw, rh), rh);
  }

  lemma ExactFit(w: nat, h: nat, rw: nat, rh: nat)
    requires rw > 0 && rh > 0 && CompareRatio(w, h, rw, rh) == 0
    ensures CropFits(w, h, rw, rh, w, h) && PadFits(w, h, rw, rh, w, h)
  {
    assert (w + 1) * rh == w * rh + rh;
  }

  /** A fitted size is exact and safe. */
  lemma FitIsExact(w: nat, h: nat, rw: nat, rh: nat, fit: Fit)
    requires w <= MAX_INT && h <= MAX_INT
    ensures var r := FitDimensions(w, h, rw, rh, fit);
            r.Fitted? ==>
              && r.width > 0 && r.height > 0 && r.width * r.height <= MAX_PIXELS
              && (fit == Crop ==> CropFits(w, h, rw, rh, r.width, r.height))
              && (fit == Pad ==> PadFits(w, h, rw, rh, r.width, r.height))
  {
    var r := FitDimensions(w, h, rw, rh, fit);
    if r.Fitted? {
      WithinPixels(r.width, r.height);
      var comparison := CompareRatio(w, h, rw, rh);
      if comparison == 0 {
        ExactFit(w, h, rw, rh);
      } else if comparison > 0 {
        if fit == Crop {
          CropWidth(w, h, rw, rh);
        } else {
          PadHeight(w, h, rw, rh);
        }
      } else {
        if fit == Crop {
          CropHeight(w, h, rw, rh);
        } else {
          PadWidth(w, h, rw, rh);
        }
      }
    }
  }

  /** A crop of a picture within the limit is refused exactly when the ratio leaves it no pixel, and
      then as invalid options. */
  lemma CropRefused(w: nat, h: nat, rw: nat, rh: nat)
    requires w > 0 && h > 0 && w <= MAX_INT && h <= MAX_INT && w * h <= MAX_PIXELS && rw > 0 && rh > 0
    ensures var r := FitDimensions(w, h, rw, rh, Crop);
            && (r.Refused? <==> h * rw < rh || w * rh < rw)
            && (r.Refused? ==> r.fault == InvalidOptions)
  {
    var comparison := CompareRatio(w, h, rw, rh);
    if comparison == 0 {
      WithinPixels(w, h);
      Grows(1, w, rh);
      Grows(1, h, rw);
    } else if comparison > 0 {
      CropWidth(w, h, rw, rh);
      var width := ScaledFloor(h, rw, rh);
      Grows(width, w, h);
      if width > 0 {
        WithinPixels(width, h);
        Grows(1, width, rh);
      }
      Grows(1, h, rw);
    } else {
      CropHeight(w, h, rw, rh);
      var height := ScaledFloor(w, rh, rw);
      Grows(height, h, w);
      if height > 0 {
        WithinPixels(w, height);
        Grows(1, height, rw);
      }
      Grows(1, w, rh);
    }
  }

  /** The pixels of the least pad: the axis that grows is rounded up. */
  function PadArea(w: nat, h: nat, rw: nat, rh: nat): nat
    requires rw > 0 && rh > 0
  {
    var comparison := CompareRatio(w, h, rw, rh);
    if comparison == 0 then w * h
    else if comparison > 0 then w * Quotient(w * rh + (rw - 1), rw)
    else Quotient(h * rw + (rh - 1), rh) * h
  }

  lemma PositiveCeil(n: nat, d: nat)
    requires n > 0 && d > 0
    ensures Quotient(n + (d - 1), d) > 0
  {
    CeilBounds(n, d);
  }

  lemma PositiveProduct(a: nat, b: nat)
    requires a > 0 && b > 0
    ensures a * b >= a && a * b >= b
  {
    Grows(1, a, b);
    Grows(1, b, a);
  }

  /** The least pad's axis that grows does not fit in a 64-bit word. */
  predicate PadOverflows(w: nat, h: nat, rw: nat, rh: nat) { w * rh > MAX_UINT64 * rw || h * rw > MAX_UINT64 * rh }

  lemma CeilAbove(n: nat, d: nat, limit: nat)
    requires d > 0
    ensures Quotient(n + (d - 1), d) > limit <==> n > limit * d
  {
    CeilBounds(n, d);
    var q := Quotient(n + (d - 1), d);
    if q > limit {
      Grows(limit + 1, q, d);
      assert (limit + 1) * d == limit * d + d;
    } else {
      Grows(q, limit, d);
    }
  }

  /** The axis that shrinks against the ratio stays within any limit that the other keeps. */
  lemma OtherAxisFits(a: nat, b: nat, ra: nat, rb: nat, limit: nat)
    requires a <= limit && a * rb >= b * ra
    ensures b * ra <= limit * rb
  {
    Grows(a, limit, rb);
  }

  /** A pad is refused exactly when even the least one has too many pixels; as invalid options, and
      not as too large, exactly when the axis that grows overflows a 64-bit word. */
  lemma PadRefused(w: nat, h: nat, rw: nat, rh: nat)
    requires 0 < w <= MAX_INT && 0 < h <= MAX_INT && rw > 0 && rh > 0
    ensures var r := FitDimensions(w, h, rw, rh, Pad);
            && (r.Refused? <==> PadArea(w, h, rw, rh) > MAX_PIXELS)
            && (r == Refused(InvalidOptions) <==> PadOverflows(w, h, rw, rh))
  {
    var comparison := CompareRatio(w, h, rw, rh);
    if comparison == 0 {
      WithinPixels(w, h);
      OtherAxisFits(w, h, rw, rh, MAX_UINT64);
      OtherAxisFits(h, w, rh, rw, MAX_UINT64);
    } else if comparison > 0 {
      PadRefusedAxis(w, h, rw, rh);
    } else {
      PadRefusedAxis(h, w, rh, rw);
    }
  }

  /** The same for a picture too long along its first axis, so that the second grows. */
  lemma PadRefusedAxis(a: nat, b: nat, ra: nat, rb: nat)
    requires 0 < a <= MAX_INT && ra > 0 && rb > 0 && a * rb > b * ra
    ensures var q := Quotient(a * rb + (ra - 1), ra);
            && q > 0 && a * q >= q && (q > MAX_UINT64 <==> PadOverflows(a, b, ra, rb) || PadOverflows(b, a, rb, ra))
            && (a > MAX_PIXELS / q <==> a * q > MAX_PIXELS) && (q > MAX_PIXELS / a <==> q * a > MAX_PIXELS)
  {
    var q := Quotient(a * rb + (ra - 1), ra);
    PositiveProduct(a, rb);
    PositiveCeil(a * rb, ra);
    PositiveProduct(a, q);
    CeilAbove(a * rb, ra, MAX_UINT64);
    OtherAxisFits(a, b, ra, rb, MAX_UINT64);
    WithinPixels(a, q);
    WithinPixels(q, a);
  }

  // ---- the pixel buffer ----

  newtype Channel = c: int | 0 <= c < 256

  datatype Pixel = Pixel(red: Channel, green: Channel, blue: Channel, alpha: Channel)

  const WHITE := Pixel(255, 255, 255, 255)

  /** Whether a request goes on at a place of a picture: it is asked before each row and at every 256th
      pixel of one. */
  ghost predicate GoesOn(ended: (nat, nat) -> bool, x: nat, y: nat) { x % 256 == 0 ==> !ended(x, y) }

  /** The request went on over the first rows of a picture. */
  ghost predicate RowsPass(ended: (nat, nat) -> bool, width: nat, rows: nat) {
    forall x: nat, y: nat :: (x == 0 || x < width) && y < rows ==> GoesOn(ended, x, y)
  }

  /** The middle of the source, pixel for pixel; every access is inside it. It is cut short exactly by the
      end of the request. */
  method CropImage(source: array2<Pixel>, width: nat, height: nat, ended: (nat, nat) -> bool)
    returns (r: Option<array2<Pixel>>)
    requires width <= source.Length0 && height <= source.Length1
    ensures r.Some? <==> RowsPass(ended, width, height)
    ensures r.Some? ==>
              var left, top := (source.Length0 - width) / 2, (source.Length1 - height) / 2;
              && fresh(r.value) && r.value.Length0 == width && r.value.Length1 == height
              && forall x, y :: 0 <= x < width && 0 <= y < height ==> r.value[x, y] == source[left + x, top + y]
  {
    var left, top := (source.Length0 - width) / 2, (source.Length1 - height) / 2;
    var destination := new Pixel[width, height]((_, _) => WHITE);
    var y := 0;
    while y < height
      invariant 0 <= y <= height && RowsPass(ended, width, y)
      invariant forall i, j :: 0 <= i < width && 0 <= j < y ==> destination[i, j] == source[left + i, top + j]
    {
      if ended(0, y) {
        assert !GoesOn(ended, 0, y);
        return None;
      }
      var x := 0;
      while x < width
        invariant 0 <= x <= width && forall i: nat :: i == 0 || i < x ==> GoesOn(ended, i, y)
        invariant forall i, j :: 0 <= i < width && 0 <= j < y ==> destination[i, j] == source[left + i, top + j]
        invariant forall i :: 0 <= i < x ==> destination[i, y] == source[left + i, top + y]
      {
        if x % 256 == 0 && ended(x, y) {
          assert !GoesOn(ended, x, y);
          return None;
        }
        destination[x, y] := source[left + x, top + y];
        x := x + 1;
      }
      y := y + 1;
    }
    r := Some(destination);
  }

  /** One channel laid over white; the stored channel is weighed by alpha once more. */
  function OverWhiteChannel(c: Channel, alpha: Channel): Channel {
    OverWhiteBound(c as int, alpha as int);
    ((c as int * alpha as int + 255 * (255 - alpha as int) + 127) / 255) as Channel
  }

  lemma OverWhiteBound(c: int, alpha: int)
    requires 0 <= c <= 255 && 0 <= alpha <= 255
    ensures 0 <= (c * alpha + 255 * (255 - alpha) + 127) / 255 <= 255
  {
    assert 0 <= c * alpha <= 255 * alpha;
  }

  function OverWhite(p: Pixel): Pixel {
    Pixel(OverWhiteChannel(p.red, p.alpha), OverWhiteChannel(p.green, p.alpha), OverWhiteChannel(p.blue, p.alpha), 255)
  }

  /** `shown` is the channel nearest to `c` laid over white with the weight alpha / 255. */
  predicate NearestOverWhite(c: Channel, alpha: Channel, shown: Channel) {
    -127 <= 255 * shown as int - (c as int * alpha as int + 255 * (255 - alpha as int)) <= 127
  }

  lemma OverWhiteNearest(c: Channel, alpha: Channel)
    ensures NearestOverWhite(c, alpha, OverWhiteChannel(c, alpha))
  {
    OverWhiteBound(c as int, alpha as int);
  }

  /** `shown` is `p` laid over white, with nothing left to see through. */
  predicate LaidOverWhite(p: Pixel, shown: Pixel) {
    && NearestOverWhite(p.red, p.alpha, shown.red) && NearestOverWhite(p.green, p.alpha, shown.green)
    && NearestOverWhite(p.blue, p.alpha, shown.blue) && shown.alpha == 255
  }

  lemma OverWhiteLaid(p: Pixel)
    ensures LaidOverWhite(p, OverWhite(p))
  {
    OverWhiteNearest(p.red, p.alpha);
    OverWhiteNearest(p.green, p.alpha);
    OverWhiteNearest(p.blue, p.alpha);
  }

  /** What a padded picture shows at a place: the source where it lies, white around it. */
  function Padded(source: array2<Pixel>, left: nat, top: nat, x: nat, y: nat): (shown: Pixel)
    reads source
    ensures if left <= x < left + source.Length0 && top <= y < top + source.Length1
            then LaidOverWhite(source[x - left, y - top], shown) else shown == Pixel(255, 255, 255, 255)
  {
    if left <= x < left + source.Length0 && top <= y < top + source.Length1
    then
      OverWhiteLaid(source[x - left, y - top]);
      OverWhite(source[x - left, y - top])
    else WHITE
  }

  /** The source centred on white, every access inside both buffers. It is cut short exactly by the end of
      the request, while painting or while laying the source. */
  method PadImage(source: array2<Pixel>, width: nat, height: nat,
                  painting: (nat, nat) -> bool, laying: (nat, nat) -> bool)
    returns (r: Option<array2<Pixel>>)
    requires width >= source.Length0 && height >= source.Length1
    ensures r.Some? <==> RowsPass(painting, width, height) && RowsPass(laying, source.Length0, source.Length1)
    ensures r.Some? ==>
              var left, top := (width - source.Length0) / 2, (height - source.Length1) / 2;
              && fresh(r.value) && r.value.Length0 == width && r.value.Length1 == height
              && forall x, y :: 0 <= x < width && 0 <= y < height ==> r.value[x, y] == Padded(source, left, top, x, y)
  {
    hide OverWhite, LaidOverWhite;
    var left, top := (width - source.Length0) / 2, (height - source.Length1) / 2;
    var destination := new Pixel[width, height]((_, _) => Pixel(0, 0, 0, 0));
    var painted := PaintWhite(destination, painting);
    if !painted {
      return None;
    }
    var y := 0;
    while y < source.Length1
      invariant 0 <= y <= source.Length1 && RowsPass(laying, source.Length0, y)
      invariant forall i, j :: 0 <= i < width && 0 <= j < height ==>
                  destination[i, j] == if j < top + y then Padded(source, left, top, i, j) else WHITE
    {
      if laying(0, y) {
        assert !GoesOn(laying, 0, y);
        return None;
      }
      var x := 0;
      while x < source.Length0
        invariant 0 <= x <= source.Length0 && forall i: nat :: i == 0 || i < x ==> GoesOn(laying, i, y)
        invariant forall i, j :: 0 <= i < width && 0 <= j < height ==>
                    destination[i, j] == if j < top + y || (j == top + y && i < left + x)
                                         then Padded(source, left, top, i, j) else WHITE
      {
        if x % 256 == 0 && laying(x, y) {
          assert !GoesOn(laying, x, y);
          return None;
        }
        destination[left + x, top + y] := OverWhite(source[x, y]);
        x := x + 1;
      }
      y := y + 1;
    }
    r := Some(destination);
  }

  method PaintWhite(destination: array2<Pixel>, ended: (nat, nat) -> bool) returns (done: bool)
    modifies destination
    ensures done <==> RowsPass(ended, destination.Length0, destination.Length1)
    ensures done ==>
              forall i, j :: 0 <= i < destination.Length0 && 0 <= j < destination.Length1 ==> destination[i, j] == WHITE
  {
    var y := 0;
    while y < destination.Length1
      invariant 0 <= y <= destination.Length1 && RowsPass(ended, destination.Length0, y)
      invariant forall i, j :: 0 <= i < destination.Length0 && 0 <= j < y ==> destination[i, j] == WHITE
    {
      if ended(0, y) {
        assert !GoesOn(ended, 0, y);
        return false;
      }
      var x := 0;
      while x < destination.Length0
        invariant 0 <= x <= destination.Length0 && forall i: nat :: i == 0 || i < x ==> GoesOn(ended, i, y)
        invariant forall i, j :: 0 <= i < destination.Length0 && 0 <= j < y ==> destination[i, j] == WHITE
        invariant forall i :: 0 <= i < x ==> destination[i, y] == WHITE
      {
        if x % 256 == 0 && ended(x, y) {
          assert !GoesOn(ended, x, y);
          return false;
        }
        destination[x, y] := WHITE;
        x := x + 1;
      }
      y := y + 1;
    }
    done := true;
  }

  // ---- bilinear resampling, over the reals ----

  /** The two source indices along one axis and the weight of the second. */
  datatype Sample = Sample(low: int, high: int, fraction: real)

  /** Where the middle of destination pixel `at` falls in the source. */
  function Position(at: nat, sourceSize: nat, size: nat): real
    requires size > 0
  {
    Ratio(at as real + 0.5, sourceSize as real, size as real) - 0.5
  }

  function Ratio(a: real, s: real, n: real): real
    requires n != 0.0
  {
    a * s / n
  }

  function SampleAt(at: nat, sourceSize: nat, size: nat): Sample
    requires size > 0
  {
    var position := Position(at, sourceSize, size);
    var floor := position.Floor;
    var (low, fraction) := if floor < 0 then (0, 0.0) else (floor, position - floor as real);
    Sample(low, if low + 1 >= sourceSize then sourceSize - 1 else low + 1, fraction)
  }

  lemma Scaled(a: real, s: real, n: real)
    requires 0.0 < a < n && 0.0 < s
    ensures 0.0 < Ratio(a, s, n) < s
  {
    assert 0.0 < a * s < n * s;
    var q := a * s / n;
    assert q * n == a * s;
    PositiveQuotient(q, n);
    SmallerQuotient(q, s, n);
  }

  lemma PositiveQuotient(q: real, n: real)
    requires q * n > 0.0 && n > 0.0
    ensures q > 0.0
  {
  }

  lemma SmallerQuotient(q: real, s: real, n: real)
    requires q * n < n * s && n > 0.0
    ensures q < s
  {
  }

  /** Both indices lie in the source and the weight is below one. */
  lemma SampleInside(at: nat, sourceSize: nat, size: nat)
    requires at < size && sourceSize > 0
    ensures var s := SampleAt(at, sourceSize, size);
            && 0 <= s.low < sourceSize && 0 <= s.high < sourceSize && s.low <= s.high <= s.low + 1
            && 0.0 <= s.fraction < 1.0
  {
    assert (at + 1) as real <= size as real;
    Scaled(at as real + 0.5, sourceSize as real, size as real);
    FloorBelow(Position(at, sourceSize, size), sourceSize);
  }

  lemma FloorBelow(x: real, n: nat)
    requires -0.5 < x < n as real - 0.5
    ensures -1 <= x.Floor < n && (x.Floor < 0 ==> x.Floor == -1) && 0.0 <= x - x.Floor as real < 1.0
  {
  }

  /** Equal sizes sample each pixel at itself. */
  lemma SampleSame(at: nat, size: nat)
    requires at < size
    ensures var s := SampleAt(at, size, size); s.low == at && s.fraction == 0.0
  {
    Whole(at as real + 0.5, size as real);
    assert Position(at, size, size) == at as real;
  }

  lemma Whole(a: real, n: real)
    requires n > 0.0
    ensures Ratio(a, n, n) == a
  {
    Cancel(a * n / n, a, n);
  }

  lemma Cancel(q: real, a: real, n: real)
    requires q * n == a * n && n > 0.0
    ensures q == a
  {
    assert (q - a) * n == 0.0;
  }

  function Mix(a: real, b: real, fraction: real): real {
    a * (1.0 - fraction) + b * fraction
  }

  predicate Between(x: real, a: real, b: real) {
    (a <= x <= b) || (b <= x <= a)
  }

  lemma MixBetween(a: real, b: real, fraction: real)
    requires 0.0 <= fraction <= 1.0
    ensures Between(Mix(a, b, fraction), a, b)
  {
    assert Mix(a, b, fraction) == a + (b - a) * fraction;
    if a <= b {
      Part(b - a, fraction);
    } else {
      Part(a - b, fraction);
      assert (b - a) * fraction == -((a - b) * fraction);
    }
  }

  lemma Part(d: real, fraction: real)
    requires 0.0 <= d && 0.0 <= fraction <= 1.0
    ensures 0.0 <= d * fraction <= d
  {
    assert 0.0 <= d * (1.0 - fraction) == d - d * fraction;
  }

  function Interpolate(a: Channel, b: Channel, c: Channel, d: Channel, fractionX: real, fractionY: real): Channel {
    var value := Mix(Mix(a as real, b as real, fractionX), Mix(c as real, d as real, fractionX), fractionY);
    if value < 0.0 then 0
    else if value > 255.0 then 255
    else
      (value + 0.5).Floor as Channel
  }

  function Least(a: Channel, b: Channel): Channel { if a <= b then a else b }
  function Most(a: Channel, b: Channel): Channel { if a <= b then b else a }

  /** Each channel stays between the smallest and largest of its four neighbours. */
  lemma InterpolateBetween(a: Channel, b: Channel, c: Channel, d: Channel, fractionX: real, fractionY: real)
    requires 0.0 <= fractionX <= 1.0 && 0.0 <= fractionY <= 1.0
    ensures Least(Least(a, b), Least(c, d)) <= Interpolate(a, b, c, d, fractionX, fractionY)
            <= Most(Most(a, b), Most(c, d))
  {
    var upper, lower := Mix(a as real, b as real, fractionX), Mix(c as real, d as real, fractionX);
    MixBetween(a as real, b as real, fractionX);
    MixBetween(c as real, d as real, fractionX);
    MixBetween(upper, lower, fractionY);
    var low, high := Least(Least(a, b), Least(c, d)), Most(Most(a, b), Most(c, d));
    assert low as real <= upper <= high as real && low as real <= lower <= high as real;
    assert low as real <= Mix(upper, lower, fractionY) <= high as real;
  }

  function BilinearPixel(tl: Pixel, tr: Pixel, bl: Pixel, br: Pixel, fx: real, fy: real): Pixel {
    Pixel(Interpolate(tl.red, tr.red, bl.red, br.red, fx, fy),
          Interpolate(tl.green, tr.green, bl.green, br.green, fx, fy),
          Interpolate(tl.blue, tr.blue, bl.blue, br.blue, fx, fy),
          Interpolate(tl.alpha, tr.alpha, bl.alpha, br.alpha, fx, fy))
  }

  /** What the resized picture shows at a place. */
  function Resampled(source: array2<Pixel>, width: nat, height: nat, x: nat, y: nat): Pixel
    requires source.Length0 > 0 && source.Length1 > 0 && x < width && y < height
    reads source
  {
    SampleInside(x, source.Length0, width);
    SampleInside(y, source.Length1, height);
    var sx, sy := SampleAt(x, source.Length0, width), SampleAt(y, source.Length1, height);
    BilinearPixel(source[sx.low, sy.low], source[sx.high, sy.low], source[sx.low, sy.high], source[sx.high, sy.high],
                  sx.fraction, sy.fraction)
  }

  // ---- the same picture, told by places and weights alone ----

  function Clamped(x: real, low: real, high: real): real {
    if x < low then low else if x > high then high else x
  }

  /** Where the middle of pixel `at` falls among the middles of `sourceSize` source pixels, kept
      between the first and the last. */
  function Place(at: nat, sourceSize: nat, size: nat): (p: real)
    requires at < size && sourceSize > 0
    ensures 0.0 <= p <= (sourceSize - 1) as real
  {
    Clamped(((2 * at + 1) * sourceSize) as real / (2 * size) as real - 0.5, 0.0, (sourceSize - 1) as real)
  }

  /** Four corners weighed by how near the place is to each, u and v being how far it is across and down. */
  function CornerMean(tl: real, tr: real, bl: real, br: real, u: real, v: real): real {
    (1.0 - u) * (1.0 - v) * tl + u * (1.0 - v) * tr + (1.0 - u) * v * bl + u * v * br
  }

  /** `c` is the mean of four corners, weighed by how near the place is to each and rounded to the
      nearest, a half upwards. */
  predicate Weighed(c: Channel, tl: Channel, tr: Channel, bl: Channel, br: Channel, u: real, v: real) {
    var mean := CornerMean(tl as real, tr as real, bl as real, br as real, u, v);
    mean - 0.5 < c as real <= mean + 0.5
  }

  predicate PixelWeighed(p: Pixel, tl: Pixel, tr: Pixel, bl: Pixel, br: Pixel, u: real, v: real) {
    && Weighed(p.red, tl.red, tr.red, bl.red, br.red, u, v)
    && Weighed(p.green, tl.green, tr.green, bl.green, br.green, u, v)
    && Weighed(p.blue, tl.blue, tr.blue, bl.blue, br.blue, u, v)
    && Weighed(p.alpha, tl.alpha, tr.alpha, bl.alpha, br.alpha, u, v)
  }

  /** `p` is the weighed mean of the four source pixels around the place that (x, y) falls on. */
  ghost predicate WeighedMean(source: array2<Pixel>, width: nat, height: nat, x: nat, y: nat, p: Pixel)
    requires source.Length0 > 0 && source.Length1 > 0 && x < width && y < height
    reads source
  {
    var placeX, placeY := Place(x, source.Length0, width), Place(y, source.Length1, height);
    var left, top := placeX.Floor, placeY.Floor;
    var right := if left + 1 < source.Length0 then left + 1 else left;
    var bottom := if top + 1 < source.Length1 then top + 1 else top;
    PixelWeighed(p, source[left, top], source[right, top], source[left, bottom], source[right, bottom],
                 placeX - left as real, placeY - top as real)
  }

  lemma SameQuotient(at: nat, sourceSize: nat, size: nat)
    requires size > 0
    ensures Position(at, sourceSize, size) == ((2 * at + 1) * sourceSize) as real / (2 * size) as real - 0.5
  {
    var q, n := Ratio(at as real + 0.5, sourceSize as real, size as real), size as real;
    assert q * n == (at as real + 0.5) * sourceSize as real;
    var whole := ((2 * at + 1) * sourceSize) as real;
    assert whole == 2.0 * ((at as real + 0.5) * sourceSize as real);
    Cancel(whole / (2.0 * n), q, 2.0 * n);
  }

  /** The sample taken lies on the place: between the same two pixels and with the same weight, or
      past the last pixel, where both are that pixel. */
  lemma SampleOnPlace(at: nat, sourceSize: nat, size: nat)
    requires at < size && sourceSize > 0
    ensures var s, place := SampleAt(at, sourceSize, size), Place(at, sourceSize, size);
            && s.low == place.Floor
            && s.high == (if s.low + 1 < sourceSize then s.low + 1 else s.low)
            && (s.fraction == place - s.low as real || (s.high == s.low && place == s.low as real))
  {
    SameQuotient(at, sourceSize, size);
    SampleInside(at, sourceSize, size);
  }

  lemma MixSame(a: real, fraction: real)
    ensures Mix(a, a, fraction) == a
  {
  }

  lemma MixSpreads(a: real, b: real, c: real, d: real, u: real, v: real)
    ensures Mix(Mix(a, b, u), Mix(c, d, u), v)
            == (1.0 - u) * (1.0 - v) * a + u * (1.0 - v) * b + (1.0 - u) * v * c + u * v * d
  {
    assert (a * (1.0 - u) + b * u) * (1.0 - v) == (1.0 - u) * (1.0 - v) * a + u * (1.0 - v) * b;
    assert (c * (1.0 - u) + d * u) * v == (1.0 - u) * v * c + u * v * d;
  }

  /** The four corners weighed as the place says, where the sample is on it or both corners of an axis
      are one pixel. */
  lemma MixWeighed(a: real, b: real, c: real, d: real, fractionX: real, fractionY: real, u: real, v: real)
    requires fractionX == u || (a == b && c == d)
    requires fractionY == v || (a == c && b == d)
    ensures Mix(Mix(a, b, fractionX), Mix(c, d, fractionX), fractionY)
            == CornerMean(a, b, c, d, u, v)
  {
    hide Mix;
    SameMix(a, b, fractionX, u);
    SameMix(c, d, fractionX, u);
    SameMix(Mix(a, b, u), Mix(c, d, u), fractionY, v);
    MixSpreads(a, b, c, d, u, v);
  }

  lemma MixWithin(a: real, b: real, fraction: real)
    requires 0.0 <= a <= 255.0 && 0.0 <= b <= 255.0 && 0.0 <= fraction <= 1.0
    ensures 0.0 <= Mix(a, b, fraction) <= 255.0
  {
    hide Mix;
    MixBetween(a, b, fraction);
  }

  lemma InterpolateRounds(a: Channel, b: Channel, c: Channel, d: Channel, fractionX: real, fractionY: real)
    requires 0.0 <= fractionX <= 1.0 && 0.0 <= fractionY <= 1.0
    ensures var value := Mix(Mix(a as real, b as real, fractionX), Mix(c as real, d as real, fractionX), fractionY);
            value - 0.5 < Interpolate(a, b, c, d, fractionX, fractionY) as real <= value + 0.5
  {
    hide Mix;
    MixWithin(a as real, b as real, fractionX);
    MixWithin(c as real, d as real, fractionX);
    MixWithin(Mix(a as real, b as real, fractionX), Mix(c as real, d as real, fractionX), fractionY);
  }

  lemma InterpolateWeighed(a: Channel, b: Channel, c: Channel, d: Channel,
                           fractionX: real, fractionY: real, u: real, v: real)
    requires 0.0 <= fractionX <= 1.0 && 0.0 <= fractionY <= 1.0
    requires fractionX == u || (a == b && c == d)
    requires fractionY == v || (a == c && b == d)
    ensures Weighed(Interpolate(a, b, c, d, fractionX, fractionY), a, b, c, d, u, v)
  {
    hide Mix, Interpolate, CornerMean;
    InterpolateRounds(a, b, c, d, fractionX, fractionY);
    MixWeighed(a as real, b as real, c as real, d as real, fractionX, fractionY, u, v);
  }

  lemma SameMix(a: real, b: real, fraction: real, u: real)
    requires fraction == u || a == b
    ensures Mix(a, b, fraction) == Mix(a, b, u)
  {
    if a == b {
      MixSame(a, fraction);
      MixSame(a, u);
    }
  }

  lemma BilinearWeighed(tl: Pixel, tr: Pixel, bl: Pixel, br: Pixel, fx: real, fy: real, u: real, v: real)
    requires 0.0 <= fx <= 1.0 && 0.0 <= fy <= 1.0
    requires fx == u || (tl == tr && bl == br)
    requires fy == v || (tl == bl && tr == br)
    ensures PixelWeighed(BilinearPixel(tl, tr, bl, br, fx, fy), tl, tr, bl, br, u, v)
  {
    InterpolateWeighed(tl.red, tr.red, bl.red, br.red, fx, fy, u, v);
    InterpolateWeighed(tl.green, tr.green, bl.green, br.green, fx, fy, u, v);
    InterpolateWeighed(tl.blue, tr.blue, bl.blue, br.blue, fx, fy, u, v);
    InterpolateWeighed(tl.alpha, tr.alpha, bl.alpha, br.alpha, fx, fy, u, v);
  }

  /** A resized picture shows at each place the mean of the four source pixels around it, each weighed
      by its nearness along both axes. */
  lemma ResampledMean(source: array2<Pixel>, width: nat, height: nat, x: nat, y: nat)
    requires source.Length0 > 0 && source.Length1 > 0 && x < width && y < height
    ensures WeighedMean(source, width, height, x, y, Resampled(source, width, height, x, y))
  {
    hide SampleAt, Place, BilinearPixel, PixelWeighed;
    SampleInside(x, source.Length0, width);
    SampleInside(y, source.Length1, height);
    SampleOnPlace(x, source.Length0, width);
    SampleOnPlace(y, source.Length1, height);
    var sx, sy := SampleAt(x, source.Length0, width), SampleAt(y, source.Length1, height);
    BilinearWeighed(source[sx.low, sy.low], source[sx.high, sy.low], source[sx.low, sy.high], source[sx.high, sy.high],
                    sx.fraction, sy.fraction,
                    Place(x, source.Length0, width) - sx.low as real,
                    Place(y, source.Length1, height) - sy.low as real);
  }

  /** Every pixel of the new size is the weighed mean of four of the source. The loops are cut short
      exactly by the end of the request. */
  method ResizeBilinear(source: array2<Pixel>, width: nat, height: nat, ended: (nat, nat) -> bool)
    returns (r: Option<array2<Pixel>>)
    requires source.Length0 > 0 && source.Length1 > 0
    ensures r.Some? <==> RowsPass(ended, width, height)
    ensures r.Some? ==>
              && fresh(r.value) && r.value.Length0 == width && r.value.Length1 == height
              && forall x, y :: 0 <= x < width && 0 <= y < height ==>
                   && r.value[x, y] == Resampled(source, width, height, x, y)
                   && WeighedMean(source, width, height, x, y, r.value[x, y])
  {
    hide SampleAt, BilinearPixel, Place, PixelWeighed;
    var destination := new Pixel[width, height]((_, _) => WHITE);
    var y := 0;
    while y < height
      invariant 0 <= y <= height && RowsPass(ended, width, y)
      invariant forall i, j :: 0 <= i < width && 0 <= j < y ==>
                  destination[i, j] == Resampled(source, width, height, i, j)
    {
      var sy := SampleAt(y, source.Length1, height);
      SampleInside(y, source.Length1, height);
      if ended(0, y) {
        assert !GoesOn(ended, 0, y);
        return None;
      }
      var x := 0;
      while x < width
        invariant 0 <= x <= width && forall i: nat :: i == 0 || i < x ==> GoesOn(ended, i, y)
        invariant forall i, j :: 0 <= i < width && 0 <= j < y ==>
                    destination[i, j] == Resampled(source, width, height, i, j)
        invariant forall i :: 0 <= i < x ==> destination[i, y] == Resampled(source, width, height, i, y)
      {
        if x % 256 == 0 && ended(x, y) {
          assert !GoesOn(ended, x, y);
          return None;
        }
        var sx := SampleAt(x, source.Length0, width);
        SampleInside(x, source.Length0, width);
        destination[x, y] := BilinearPixel(source[sx.low, sy.low], source[sx.high, sy.low],
                                           source[sx.low, sy.high], source[sx.high, sy.high], sx.fraction, sy.fraction);
        x := x + 1;
      }
      y := y + 1;
    }
    forall i, j | 0 <= i < width && 0 <= j < height
      ensures WeighedMean(source, width, height, i, j, destination[i, j])
    {
      ResampledMean(source, width, height, i, j);
    }
    r := Some(destination);
  }

  predicate ChannelsBetween(p: Pixel, a: Pixel, b: Pixel, c: Pixel, d: Pixel) {
    && Least(Least(a.red, b.red), Least(c.red, d.red)) <= p.red <= Most(Most(a.red, b.red), Most(c.red, d.red))
    && Least(Least(a.green, b.green), Least(c.green, d.green)) <= p.green
       <= Most(Most(a.green, b.green), Most(c.green, d.green))
    && Least(Least(a.blue, b.blue), Least(c.blue, d.blue)) <= p.blue <= Most(Most(a.blue, b.blue), Most(c.blue, d.blue))
    && Least(Least(a.alpha, b.alpha), Least(c.alpha, d.alpha)) <= p.alpha
       <= Most(Most(a.alpha, b.alpha), Most(c.alpha, d.alpha))
  }

  lemma BilinearBetween(a: Pixel, b: Pixel, c: Pixel, d: Pixel, fx: real, fy: real)
    requires 0.0 <= fx <= 1.0 && 0.0 <= fy <= 1.0
    ensures ChannelsBetween(BilinearPixel(a, b, c, d, fx, fy), a, b, c, d)
  {
    InterpolateBetween(a.red, b.red, c.red, d.red, fx, fy);
    InterpolateBetween(a.green, b.green, c.green, d.green, fx, fy);
    InterpolateBetween(a.blue, b.blue, c.blue, d.blue, fx, fy);
    InterpolateBetween(a.alpha, b.alpha, c.alpha, d.alpha, fx, fy);
  }

  /** Each channel of a resized pixel lies between those of four source pixels, neighbours of one
      another around the place sampled. */
  lemma ResampledBetween(source: array2<Pixel>, width: nat, height: nat, x: nat, y: nat)
    returns (left: nat, right: nat, top: nat, bottom: nat)
    requires source.Length0 > 0 && source.Length1 > 0 && x < width && y < height
    ensures left <= right < source.Length0 && right <= left + 1 && top <= bottom < source.Length1 && bottom <= top + 1
    ensures ChannelsBetween(Resampled(source, width, height, x, y),
                            source[left, top], source[right, top], source[left, bottom], source[right, bottom])
  {
    SampleInside(x, source.Length0, width);
    SampleInside(y, source.Length1, height);
    var sx, sy := SampleAt(x, source.Length0, width), SampleAt(y, source.Length1, height);
    left, right, top, bottom := sx.low, sx.high, sy.low, sy.high;
    BilinearBetween(source[left, top], source[right, top], source[left, bottom], source[right, bottom],
                    sx.fraction, sy.fraction);
  }

  /** Resizing to the same size changes no pixel. */
  lemma ResizeIdentity(source: array2<Pixel>, x: nat, y: nat)
    requires x < source.Length0 && y < source.Length1
    ensures Resampled(source, source.Length0, source.Length1, x, y) == source[x, y]
  {
    SampleSame(x, source.Length0);
    SampleSame(y, source.Length1);
  }

  /** Crop, pad and resize of a fitted picture never leave their buffers: what a fit promises is
      what the loops require. */
  lemma FitServes(w: nat, h: nat, rw: nat, rh: nat, fit: Fit)
    requires 0 < w <= MAX_INT && 0 < h <= MAX_INT
    ensures var r := FitDimensions(w, h, rw, rh, fit);
            r.Fitted? ==> r.width > 0 && r.height > 0
                          && (if fit == Crop then r.width <= w && r.height <= h else r.width >= w && r.height >= h)
  {
    FitIsExact(w, h, rw, rh, fit);
  }
}
