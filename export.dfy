/** The export bounding box: the tight box around every placed part's
    unrotated, axis-aligned rectangle, in native pixels. */
module ExportBox {

  /** An axis-aligned rectangle: top-left corner and size. */
  datatype Rect = Rect(x: real, y: real, width: real, height: real)

  function Left(r: Rect): real { r.x }
  function Top(r: Rect): real { r.y }
  function Right(r: Rect): real { r.x + r.width }
  function Bottom(r: Rect): real { r.y + r.height }

  /** The smallest value; the loop's `Math.min` accumulation. */
  function MinOf(xs: seq<real>): (m: real)
    requires |xs| > 0
    ensures forall k :: 0 <= k < |xs| ==> m <= xs[k]
    ensures exists k :: 0 <= k < |xs| && xs[k] == m
  {
    if |xs| == 1 then xs[0]
    else
      var m' := MinOf(xs[..|xs| - 1]);
      if xs[|xs| - 1] < m' then xs[|xs| - 1] else m'
  }

  /** The largest value; the loop's `Math.max` accumulation. */
  function MaxOf(xs: seq<real>): (m: real)
    requires |xs| > 0
    ensures forall k :: 0 <= k < |xs| ==> xs[k] <= m
    ensures exists k :: 0 <= k < |xs| && xs[k] == m
  {
    if |xs| == 1 then xs[0]
    else
      var m' := MaxOf(xs[..|xs| - 1]);
      if xs[|xs| - 1] > m' then xs[|xs| - 1] else m'
  }

  function Lefts(rs: seq<Rect>): (r: seq<real>)
    ensures |r| == |rs| && forall k :: 0 <= k < |rs| ==> r[k] == Left(rs[k])
  {
    seq(|rs|, k requires 0 <= k < |rs| => Left(rs[k]))
  }

  function Tops(rs: seq<Rect>): (r: seq<real>)
    ensures |r| == |rs| && forall k :: 0 <= k < |rs| ==> r[k] == Top(rs[k])
  {
    seq(|rs|, k requires 0 <= k < |rs| => Top(rs[k]))
  }

  function Rights(rs: seq<Rect>): (r: seq<real>)
    ensures |r| == |rs| && forall k :: 0 <= k < |rs| ==> r[k] == Right(rs[k])
  {
    seq(|rs|, k requires 0 <= k < |rs| => Right(rs[k]))
  }

  function Bottoms(rs: seq<Rect>): (r: seq<real>)
    ensures |r| == |rs| && forall k :: 0 <= k < |rs| ==> r[k] == Bottom(rs[k])
  {
    seq(|rs|, k requires 0 <= k < |rs| => Bottom(rs[k]))
  }

  /** The export image's placement and size: the minimum corner, and
      `maxX - minX` by `maxY - minY`. */
  function BoundingBox(rs: seq<Rect>): (b: Rect)
    requires |rs| > 0
  {
    var minX, minY := MinOf(Lefts(rs)), MinOf(Tops(rs));
    Rect(minX, minY, MaxOf(Rights(rs)) - minX, MaxOf(Bottoms(rs)) - minY)
  }

  /** The four running bounds of the accumulation loop determine the box. */
  lemma BoundingBoxOfBounds(rs: seq<Rect>, minX: real, minY: real, maxX: real, maxY: real)
    requires |rs| > 0
    requires minX == MinOf(Lefts(rs)) && minY == MinOf(Tops(rs))
    requires maxX == MaxOf(Rights(rs)) && maxY == MaxOf(Bottoms(rs))
    ensures BoundingBox(rs) == Rect(minX, minY, maxX - minX, maxY - minY)
  {
  }

  /** The box contains every rectangle. */
  lemma BoundingBoxContains(rs: seq<Rect>, k: nat)
    requires k < |rs|
    ensures var b := BoundingBox(rs);
      Left(b) <= Left(rs[k]) && Right(rs[k]) <= Right(b) &&
      Top(b) <= Top(rs[k]) && Bottom(rs[k]) <= Bottom(b)
  {
    assert Lefts(rs)[k] == Left(rs[k]);
    assert Rights(rs)[k] == Right(rs[k]);
    assert Tops(rs)[k] == Top(rs[k]);
    assert Bottoms(rs)[k] == Bottom(rs[k]);
  }

  /** No smaller box would do: each of its four edges touches a rectangle. */
  lemma BoundingBoxTight(rs: seq<Rect>)
    requires |rs| > 0
    ensures var b := BoundingBox(rs);
      (exists k :: 0 <= k < |rs| && Left(rs[k]) == Left(b)) &&
      (exists k :: 0 <= k < |rs| && Top(rs[k]) == Top(b)) &&
      (exists k :: 0 <= k < |rs| && Right(rs[k]) == Right(b)) &&
      (exists k :: 0 <= k < |rs| && Bottom(rs[k]) == Bottom(b))
  {
    var b := BoundingBox(rs);
    var l :| 0 <= l < |rs| && Lefts(rs)[l] == MinOf(Lefts(rs));
    var t :| 0 <= t < |rs| && Tops(rs)[t] == MinOf(Tops(rs));
    var r :| 0 <= r < |rs| && Rights(rs)[r] == MaxOf(Rights(rs));
    var d :| 0 <= d < |rs| && Bottoms(rs)[d] == MaxOf(Bottoms(rs));
    assert Left(rs[l]) == Left(b) && Top(rs[t]) == Top(b);
    assert Right(rs[r]) == Right(b) && Bottom(rs[d]) == Bottom(b);
  }

  /** The documented example: native rectangles (0,0,8,8) and (4,4,8,8)
      export as a 12 x 12 image. */
  lemma TwoOverlappingSquares()
    ensures var b := BoundingBox([Rect(0.0, 0.0, 8.0, 8.0), Rect(4.0, 4.0, 8.0, 8.0)]);
      b.width == 12.0 && b.height == 12.0
  {
    var rs := [Rect(0.0, 0.0, 8.0, 8.0), Rect(4.0, 4.0, 8.0, 8.0)];
    assert Lefts(rs) == [0.0, 4.0];
    assert Tops(rs) == [0.0, 4.0];
    assert Rights(rs) == [8.0, 12.0];
    assert Bottoms(rs) == [8.0, 12.0];
    assert [0.0, 4.0][..1] == [0.0];
    assert [8.0, 12.0][..1] == [8.0];
  }

  /** One more rectangle widens each running bound by at most itself: the
      step of the accumulation loop. */
  lemma BoundsSnoc(rs: seq<Rect>, r: Rect)
    requires |rs| > 0
    ensures MinOf(Lefts(rs + [r])) == (if Left(r) < MinOf(Lefts(rs)) then Left(r) else MinOf(Lefts(rs)))
    ensures MinOf(Tops(rs + [r])) == (if Top(r) < MinOf(Tops(rs)) then Top(r) else MinOf(Tops(rs)))
    ensures MaxOf(Rights(rs + [r])) == (if Right(r) > MaxOf(Rights(rs)) then Right(r) else MaxOf(Rights(rs)))
    ensures MaxOf(Bottoms(rs + [r])) == (if Bottom(r) > MaxOf(Bottoms(rs)) then Bottom(r) else MaxOf(Bottoms(rs)))
  {
    var rs' := rs + [r];
    assert Lefts(rs')[..|rs|] == Lefts(rs);
    assert Tops(rs')[..|rs|] == Tops(rs);
    assert Rights(rs')[..|rs|] == Rights(rs);
    assert Bottoms(rs')[..|rs|] == Bottoms(rs);
  }

  lemma PrefixBounds(rs: seq<Rect>, i: nat)
    requires 1 <= i < |rs|
    ensures var p, q, r := rs[..i], rs[..i + 1], rs[i];
      MinOf(Lefts(q)) == (if Left(r) < MinOf(Lefts(p)) then Left(r) else MinOf(Lefts(p))) &&
      MinOf(Tops(q)) == (if Top(r) < MinOf(Tops(p)) then Top(r) else MinOf(Tops(p))) &&
      MaxOf(Rights(q)) == (if Right(r) > MaxOf(Rights(p)) then Right(r) else MaxOf(Rights(p))) &&
      MaxOf(Bottoms(q)) == (if Bottom(r) > MaxOf(Bottoms(p)) then Bottom(r) else MaxOf(Bottoms(p)))
  {
    assert rs[..i + 1] == rs[..i] + [rs[i]];
    BoundsSnoc(rs[..i], rs[i]);
  }

  /** The `forEach` of the export: widen four running bounds by each
      rectangle in turn. The source starts them at plus and minus Infinity;
      starting from the first rectangle gives the same bounds. */
  method AccumulateBounds(rs: seq<Rect>) returns (b: Rect)
    requires |rs| > 0
    ensures b == BoundingBox(rs)
  {
    var minX, minY := Left(rs[0]), Top(rs[0]);
    var maxX, maxY := Right(rs[0]), Bottom(rs[0]);
    var i := 1;
    assert rs[..1] == [rs[0]];
    while i < |rs|
      invariant 1 <= i <= |rs|
      invariant minX == MinOf(Lefts(rs[..i])) && minY == MinOf(Tops(rs[..i]))
      invariant maxX == MaxOf(Rights(rs[..i])) && maxY == MaxOf(Bottoms(rs[..i]))
    {
      PrefixBounds(rs, i);
      minX := if Left(rs[i]) < minX then Left(rs[i]) else minX;
      minY := if Top(rs[i]) < minY then Top(rs[i]) else minY;
      maxX := if Right(rs[i]) > maxX then Right(rs[i]) else maxX;
      maxY := if Bottom(rs[i]) > maxY then Bottom(rs[i]) else maxY;
      i := i + 1;
    }
    assert rs[..i] == rs;
    BoundingBoxOfBounds(rs, minX, minY, maxX, maxY);
    b := Rect(minX, minY, maxX - minX, maxY - minY);
  }
}
