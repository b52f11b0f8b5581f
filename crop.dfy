/** Auto-cropping a part image to the tight box of its visible pixels. The
    image is modelled by its alpha channel, one row per y. */
module AutoCrop {

  datatype Image = Image(width: nat, height: nat, alpha: seq<seq<int>>)

  /** `height` rows of `width` alpha values each. */
  predicate WellFormed(img: Image) {
    |img.alpha| == img.height &&
    forall y :: 0 <= y < img.height ==> |img.alpha[y]| == img.width
  }

  /** Pixel (x, y) is visible: its alpha is above zero. */
  predicate Opaque(img: Image, x: nat, y: nat)
    requires WellFormed(img) && x < img.width && y < img.height
  {
    img.alpha[y][x] > 0
  }

  ghost predicate HasOpaque(img: Image)
    requires WellFormed(img)
  {
    exists x: nat, y: nat :: x < img.width && y < img.height && Opaque(img, x, y)
  }

  /** An inclusive pixel window `[minX..maxX] x [minY..maxY]`. */
  datatype Box = Box(minX: nat, minY: nat, maxX: nat, maxY: nat)

  predicate InImage(img: Image, b: Box) {
    b.minX <= b.maxX < img.width && b.minY <= b.maxY < img.height
  }

  /** Every visible pixel lies inside the window. */
  ghost predicate Covers(img: Image, b: Box)
    requires WellFormed(img)
  {
    forall x: nat, y: nat :: x < img.width && y < img.height && Opaque(img, x, y) ==>
      b.minX <= x <= b.maxX && b.minY <= y <= b.maxY
  }

  /** The window covers every visible pixel and each of its four border lines
      holds one, so no smaller window covers them. */
  ghost predicate Tight(img: Image, b: Box)
    requires WellFormed(img)
  {
    InImage(img, b) && Covers(img, b) &&
    (exists y: nat :: y < img.height && Opaque(img, b.minX, y)) &&
    (exists y: nat :: y < img.height && Opaque(img, b.maxX, y)) &&
    (exists x: nat :: x < img.width && Opaque(img, x, b.minY)) &&
    (exists x: nat :: x < img.width && Opaque(img, x, b.maxY))
  }

  /** The pixels of the window, as a new image of `maxX - minX + 1` by
      `maxY - minY + 1`. */
  function Crop(img: Image, b: Box): (r: Image)
    requires WellFormed(img) && InImage(img, b)
    ensures WellFormed(r)
    ensures r.width == b.maxX - b.minX + 1 && r.height == b.maxY - b.minY + 1
    ensures forall x, y :: 0 <= x < r.width && 0 <= y < r.height ==>
      r.alpha[y][x] == img.alpha[b.minY + y][b.minX + x]
  {
    var w, h := b.maxX - b.minX + 1, b.maxY - b.minY + 1;
    Image(w, h, seq(h, i requires 0 <= i < h =>
                      seq(w, j requires 0 <= j < w => img.alpha[b.minY + i][b.minX + j])))
  }

  /** The result of auto-cropping: the tight crop when `img` has a
      visible pixel. */
  ghost predicate IsTightCrop(img: Image, r: Image)
    requires WellFormed(img)
  {
    exists b :: Tight(img, b) && r == Crop(img, b)
  }

  /** The window of the whole image. */
  function FullBox(img: Image): Box
    requires img.width > 0 && img.height > 0
  {
    Box(0, 0, img.width - 1, img.height - 1)
  }

  /** A pixel already scanned: any earlier row, or an earlier column of the
      current row. */
  predicate Scanned(x: nat, y: nat, cx: nat, cy: nat) {
    y < cy || (y == cy && x < cx)
  }

  /** The scan of the source's nested loop: start with minX = width,
      minY = height, maxX = maxY = 0 and widen the window at every pixel whose
      alpha is above zero. minX stays at width exactly when nothing is
      visible. */
  method FindBounds(img: Image) returns (minX: nat, minY: nat, maxX: nat, maxY: nat)
    requires WellFormed(img)
    ensures minX < img.width <==> HasOpaque(img)
    ensures minX < img.width ==> Tight(img, Box(minX, minY, maxX, maxY))
    ensures minX >= img.width ==> minX == img.width && minY == img.height && maxX == 0 && maxY == 0
  {
    minX, minY, maxX, maxY := img.width, img.height, 0, 0;
    // witnesses: for each bound, a visible pixel that attains it
    ghost var wx1: nat, wy1: nat, wx2: nat, wy2: nat := 0, 0, 0, 0;
    ghost var wx3: nat, wy3: nat, wx4: nat, wy4: nat := 0, 0, 0, 0;
    var y: nat := 0;
    while y < img.height
      invariant 0 <= y <= img.height
      invariant minX <= img.width
      invariant minX == img.width ==> minY == img.height && maxX == 0 && maxY == 0
      invariant minX == img.width ==> forall x: nat, y': nat ::
        x < img.width && y' < y ==> !Opaque(img, x, y')
      invariant minX < img.width ==>
        wx1 == minX && wy1 < y && wx1 < img.width && Opaque(img, wx1, wy1) &&
        wx2 == maxX && wy2 < y && wx2 < img.width && Opaque(img, wx2, wy2) &&
        wy3 == minY && wy3 < y && wx3 < img.width && Opaque(img, wx3, wy3) &&
        wy4 == maxY && wy4 < y && wx4 < img.width && Opaque(img, wx4, wy4)
      invariant minX < img.width ==> forall x: nat, y': nat ::
        x < img.width && y' < y && Opaque(img, x, y') ==>
          minX <= x <= maxX && minY <= y' <= maxY
    {
      var x: nat := 0;
      while x < img.width
        invariant 0 <= x <= img.width
        invariant minX <= img.width
        invariant minX == img.width ==> minY == img.height && maxX == 0 && maxY == 0
        invariant minX == img.width ==> forall x': nat, y': nat ::
          x' < img.width && Scanned(x', y', x, y) ==> !Opaque(img, x', y')
        invariant minX < img.width ==>
          wx1 < img.width && wx2 < img.width && wx3 < img.width && wx4 < img.width &&
          wy1 <= y && wy2 <= y && wy3 <= y && wy4 <= y &&
          wx1 == minX && Scanned(wx1, wy1, x, y) && Opaque(img, wx1, wy1) &&
          wx2 == maxX && Scanned(wx2, wy2, x, y) && Opaque(img, wx2, wy2) &&
          wy3 == minY && Scanned(wx3, wy3, x, y) && Opaque(img, wx3, wy3) &&
          wy4 == maxY && Scanned(wx4, wy4, x, y) && Opaque(img, wx4, wy4)
        invariant minX < img.width ==> forall x': nat, y': nat ::
          x' < img.width && Scanned(x', y', x, y) && Opaque(img, x', y') ==>
            minX <= x' <= maxX && minY <= y' <= maxY
      {
        if img.alpha[y][x] > 0 {
          if minX == img.width {
            // the first visible pixel: every bound is this one
            minX, minY, maxX, maxY := x, y, x, y;
            wx1, wy1, wx2, wy2 := x, y, x, y;
            wx3, wy3, wx4, wy4 := x, y, x, y;
          } else {
            if x < minX { minX := x; wx1, wy1 := x, y; }
            if y < minY { minY := y; wx3, wy3 := x, y; }
            if x > maxX { maxX := x; wx2, wy2 := x, y; }
            if y > maxY { maxY := y; wx4, wy4 := x, y; }
          }
        }
        x := x + 1;
      }
      y := y + 1;
    }
    if minX < img.width {
      assert Opaque(img, wx1, wy1) && Opaque(img, wx2, wy2);
      assert Opaque(img, wx3, wy3) && Opaque(img, wx4, wy4);
    }
  }

  /** `autoCropImage`: crop to the tight window when some pixel is visible,
      return the image untouched when none is. */
  method AutoCropImage(img: Image) returns (r: Image)
    requires WellFormed(img)
    ensures WellFormed(r)
    ensures HasOpaque(img) ==> IsTightCrop(img, r)
    ensures !HasOpaque(img) ==> r == img
  {
    var minX, minY, maxX, maxY := FindBounds(img);
    if minX < img.width {
      r := Crop(img, Box(minX, minY, maxX, maxY));
    } else {
      r := img;
    }
  }

  /** A visible pixel's column and row bound any covering window. */
  lemma TightUnique(img: Image, b1: Box, b2: Box)
    requires WellFormed(img) && Tight(img, b1) && Tight(img, b2)
    ensures b1 == b2
  {
    var y1: nat :| y1 < img.height && Opaque(img, b2.minX, y1);
    var y2: nat :| y2 < img.height && Opaque(img, b1.minX, y2);
    var y3: nat :| y3 < img.height && Opaque(img, b2.maxX, y3);
    var y4: nat :| y4 < img.height && Opaque(img, b1.maxX, y4);
    var x1: nat :| x1 < img.width && Opaque(img, x1, b2.minY);
    var x2: nat :| x2 < img.width && Opaque(img, x2, b1.minY);
    var x3: nat :| x3 < img.width && Opaque(img, x3, b2.maxY);
    var x4: nat :| x4 < img.width && Opaque(img, x4, b1.maxY);
  }

  /** The crop of a tight window has no transparent border: its own tight
      window is the whole of it. */
  lemma CroppedIsTight(img: Image, b: Box)
    requires WellFormed(img) && Tight(img, b)
    ensures var c := Crop(img, b); c.width > 0 && c.height > 0 && Tight(c, FullBox(c))
  {
    var c := Crop(img, b);
    var f := FullBox(c);
    var y1: nat :| y1 < img.height && Opaque(img, b.minX, y1);
    var y2: nat :| y2 < img.height && Opaque(img, b.maxX, y2);
    var x1: nat :| x1 < img.width && Opaque(img, x1, b.minY);
    var x2: nat :| x2 < img.width && Opaque(img, x2, b.maxY);
    assert Opaque(c, 0, y1 - b.minY);
    assert Opaque(c, c.width - 1, y2 - b.minY);
    assert Opaque(c, x1 - b.minX, 0);
    assert Opaque(c, x2 - b.minX, c.height - 1);
  }

  /** Cropping to the whole image changes nothing. */
  lemma CropFullIsIdentity(img: Image)
    requires WellFormed(img) && img.width > 0 && img.height > 0
    ensures Crop(img, FullBox(img)) == img
  {
    var c := Crop(img, FullBox(img));
    forall y | 0 <= y < img.height
      ensures c.alpha[y] == img.alpha[y]
    {
      assert |c.alpha[y]| == |img.alpha[y]|;
    }
    assert c.alpha == img.alpha;
  }

  /** A tight crop has a visible pixel, so auto-cropping it crops again ... */
  lemma TightCropHasOpaque(img: Image, r: Image)
    requires WellFormed(img) && IsTightCrop(img, r)
    ensures WellFormed(r) && HasOpaque(r)
  {
    var b :| Tight(img, b) && r == Crop(img, b);
    CroppedIsTight(img, b);
    var y: nat :| y < r.height && Opaque(r, 0, y);
  }

  /** ... and that second crop returns the same image: auto-cropping is
      idempotent. */
  lemma TightCropIsStable(img: Image, r: Image, r2: Image)
    requires WellFormed(img) && IsTightCrop(img, r)
    requires WellFormed(r) && IsTightCrop(r, r2)
    ensures r2 == r
  {
    var b :| Tight(img, b) && r == Crop(img, b);
    CroppedIsTight(img, b);
    var b2 :| Tight(r, b2) && r2 == Crop(r, b2);
    TightUnique(r, b2, FullBox(r));
    CropFullIsIdentity(r);
  }

  /** An image with a visible pixel on each of its four borders comes back
      from auto-cropping identical. */
  lemma NoBorderUnchanged(img: Image, r: Image)
    requires WellFormed(img) && img.width > 0 && img.height > 0
    requires Tight(img, FullBox(img)) && IsTightCrop(img, r)
    ensures r == img
  {
    var b :| Tight(img, b) && r == Crop(img, b);
    TightUnique(img, b, FullBox(img));
    CropFullIsIdentity(img);
  }
}
