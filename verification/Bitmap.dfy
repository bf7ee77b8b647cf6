// The pixel transforms between the Windows bitmap and the image sent to Android:
// data_sharing/client/utils/Image.go.
//
// PNG is lossless, so an image is its RGBA bytes, four a pixel, row by row.  A pixel is its four
// bytes; the loops run over coordinates and the bytes are found by index arithmetic.
module Bitmap {
  import opened Bytes

  /** 4*(x + y*w): where pixel (x, y) begins in an image w wide and h high. */
  function Offset(w: nat, h: nat, x: nat, y: nat): (o: nat)
    requires x < w && y < h
    ensures o + 4 <= 4 * (w * h)
  {
    RowFits(w, h, x, y);
    4 * (x + y * w)
  }

  lemma RowFits(w: nat, h: nat, x: nat, y: nat)
    requires x < w && y < h
    ensures x + y * w + 1 <= w * h
  {
    assert y * w <= (h - 1) * w;
    assert (h - 1) * w + w == w * h;
  }

  lemma OffsetsApart(w: nat, h: nat, x: nat, y: nat, u: nat, v: nat)
    requires x < w && y < h && u < w && v < h && (x, y) != (u, v)
    ensures Offset(w, h, x, y) + 4 <= Offset(w, h, u, v) || Offset(w, h, u, v) + 4 <= Offset(w, h, x, y)
  {
    if y < v {
      RowFits(w, v, x, y);
      assert w * v == v * w;
    } else if v < y {
      RowFits(w, y, u, v);
      assert w * y == y * w;
    }
  }

  type Pixel = p: seq<byte> | |p| == 4
    witness [0, 0, 0, 0]

  predicate Holds(pix: seq<byte>, w: nat, h: nat) {
    |pix| == 4 * (w * h)
  }

  function At(pix: seq<byte>, w: nat, h: nat, x: nat, y: nat): Pixel
    requires Holds(pix, w, h) && x < w && y < h
  {
    var o := Offset(w, h, x, y);
    pix[o..o + 4]
  }

  /** img.Set */
  method Set(pix: array<byte>, w: nat, h: nat, x: nat, y: nat, p: Pixel)
    requires Holds(pix[..], w, h) && x < w && y < h
    modifies pix
    ensures At(pix[..], w, h, x, y) == p
    ensures forall u: nat, v: nat :: u < w && v < h && (u, v) != (x, y) ==>
              At(pix[..], w, h, u, v) == At(old(pix[..]), w, h, u, v)
  {
    var o := Offset(w, h, x, y);
    CopyInto(pix, o, p);
    assert pix[..][o..o + 4] == pix[o..o + 4];
    forall u: nat, v: nat | u < w && v < h && (u, v) != (x, y)
      ensures At(pix[..], w, h, u, v) == At(old(pix[..]), w, h, u, v)
    {
      OffsetsApart(w, h, x, y, u, v);
    }
  }

  /** Pixel (x, y) is visited before the loops reach (i, j): row by row, left to right. */
  predicate Before(x: nat, y: nat, i: nat, j: nat) {
    y < j || (y == j && x < i)
  }

  ghost predicate Rotated(img: seq<byte>, out: seq<byte>, w: nat, h: nat)
    requires Holds(img, w, h) && Holds(out, w, h)
  {
    forall x: nat, y: nat :: x < w && y < h ==> At(out, w, h, w - 1 - x, h - 1 - y) == At(img, w, h, x, y)
  }

  ghost predicate Mirrored(img: seq<byte>, out: seq<byte>, w: nat, h: nat)
    requires Holds(img, w, h) && Holds(out, w, h)
  {
    forall x: nat, y: nat :: x < w && y < h ==> At(out, w, h, w - 1 - x, y) == At(img, w, h, x, y)
  }

  ghost predicate Flipped(img: seq<byte>, out: seq<byte>, w: nat, h: nat)
    requires Holds(img, w, h) && Holds(out, w, h)
  {
    forall x: nat, y: nat :: x < w && y < h ==> At(out, w, h, x, h - 1 - y) == At(img, w, h, x, y)
  }

  method RotateImage(img: seq<byte>, w: nat, h: nat) returns (out: array<byte>)
    requires Holds(img, w, h)
    ensures fresh(out) && Holds(out[..], w, h) && Rotated(img, out[..], w, h)
  {
    hide At, Offset;
    out := new byte[4 * (w * h)](_ => 0);
    for y := 0 to h
      invariant Holds(out[..], w, h)
      invariant forall u: nat, v: nat :: u < w && v < h && Before(u, v, 0, y) ==>
                  At(out[..], w, h, w - 1 - u, h - 1 - v) == At(img, w, h, u, v)
    {
      for x := 0 to w
        invariant Holds(out[..], w, h)
        invariant forall u: nat, v: nat :: u < w && v < h && Before(u, v, x, y) ==>
                    At(out[..], w, h, w - 1 - u, h - 1 - v) == At(img, w, h, u, v)
      {
        var nx := w - 1 - x;
        var ny := h - 1 - y;
        Set(out, w, h, nx, ny, At(img, w, h, x, y));
      }
    }
  }

  method MirrorHorizontal(img: seq<byte>, w: nat, h: nat) returns (out: array<byte>)
    requires Holds(img, w, h)
    ensures fresh(out) && Holds(out[..], w, h) && Mirrored(img, out[..], w, h)
  {
    hide At, Offset;
    out := new byte[4 * (w * h)](_ => 0);
    for y := 0 to h
      invariant Holds(out[..], w, h)
      invariant forall u: nat, v: nat :: u < w && v < h && Before(u, v, 0, y) ==>
                  At(out[..], w, h, w - 1 - u, v) == At(img, w, h, u, v)
    {
      for x := 0 to w
        invariant Holds(out[..], w, h)
        invariant forall u: nat, v: nat :: u < w && v < h && Before(u, v, x, y) ==>
                    At(out[..], w, h, w - 1 - u, v) == At(img, w, h, u, v)
      {
        Set(out, w, h, w - 1 - x, y, At(img, w, h, x, y));
      }
    }
  }

  /** A bitmap pixel B, G, R, any as an opaque R, G, B, A pixel. */
  function Opaque(p: Pixel): Pixel {
    [p[2], p[1], p[0], 255]
  }

  /** uint8 of a channel of color.RGBA(): 16 bits that repeat the byte. */
  function LowByte(v: byte): (r: byte)
    ensures r == v
  {
    (v * 0x101) % 0x100
  }

  /** An R, G, B, A pixel as a bitmap pixel B, G, R, 0. */
  function Plain(p: Pixel): Pixel {
    [LowByte(p[2]), LowByte(p[1]), LowByte(p[0]), 0]
  }

  /** Byte by byte: pixel (x, y) of the bitmap, B, G, R and anything, is R, G, B and 255 in row
      h-1-y of the image. */
  predicate ImagePixel(bitmapData: seq<byte>, out: seq<byte>, w: nat, h: nat, x: nat, y: nat) {
    var i, o := 4 * (x + y * w), 4 * (x + (h - 1 - y) * w);
    && 0 <= i && i + 4 <= |bitmapData| && 0 <= o && o + 4 <= |out|
    && out[o] == bitmapData[i + 2] && out[o + 1] == bitmapData[i + 1] && out[o + 2] == bitmapData[i]
    && out[o + 3] == 255
  }

  /** And back: pixel (x, y) of the image, R, G, B, A, is B, G, R and 0 in row h-1-y of the bitmap. */
  predicate BitmapPixel(img: seq<byte>, out: seq<byte>, w: nat, h: nat, x: nat, y: nat) {
    var i, o := 4 * (x + y * w), 4 * (x + (h - 1 - y) * w);
    && 0 <= i && i + 4 <= |img| && 0 <= o && o + 4 <= |out|
    && out[o] == img[i + 2] && out[o + 1] == img[i + 1] && out[o + 2] == img[i]
    && out[o + 3] == 0
  }

  lemma PixelBytes(pix: seq<byte>, w: nat, h: nat, x: nat, y: nat)
    requires Holds(pix, w, h) && x < w && y < h
    ensures var o := 4 * (x + y * w);
            0 <= o && o + 4 <= |pix| && At(pix, w, h, x, y) == [pix[o], pix[o + 1], pix[o + 2], pix[o + 3]]
  {
    RowFits(w, h, x, y);
  }

  /** BitmapToImage up to the PNG encoding. */
  method BitmapToImage(bitmapData: seq<byte>, w: nat, h: nat) returns (out: array<byte>)
    requires Holds(bitmapData, w, h)
    ensures fresh(out) && Holds(out[..], w, h)
    ensures forall x: nat, y: nat :: x < w && y < h ==>
              At(out[..], w, h, x, h - 1 - y) == Opaque(At(bitmapData, w, h, x, y))
    ensures forall x: nat, y: nat :: x < w && y < h ==> ImagePixel(bitmapData, out[..], w, h, x, y)
  {
    hide At, Offset, ImagePixel;
    var img := new byte[4 * (w * h)](_ => 0);
    for y := 0 to h
      invariant Holds(img[..], w, h)
      invariant forall u: nat, v: nat :: u < w && v < h && Before(u, v, 0, y) ==>
                  At(img[..], w, h, w - 1 - u, v) == Opaque(At(bitmapData, w, h, u, v))
    {
      for x := 0 to w
        invariant Holds(img[..], w, h)
        invariant forall u: nat, v: nat :: u < w && v < h && Before(u, v, x, y) ==>
                    At(img[..], w, h, w - 1 - u, v) == Opaque(At(bitmapData, w, h, u, v))
      {
        Set(img, w, h, w - 1 - x, y, Opaque(At(bitmapData, w, h, x, y)));
      }
    }
    out := RotateImage(img[..], w, h);
    forall x: nat, y: nat | x < w && y < h
      ensures At(out[..], w, h, x, h - 1 - y) == Opaque(At(bitmapData, w, h, x, y))
    {
      assert At(out[..], w, h, w - 1 - (w - 1 - x), h - 1 - y) == At(img[..], w, h, w - 1 - x, y);
    }
    forall x: nat, y: nat | x < w && y < h
      ensures ImagePixel(bitmapData, out[..], w, h, x, y)
    {
      OpaqueBytes(bitmapData, out[..], w, h, x, y);
    }
  }

  lemma OpaqueBytes(bitmapData: seq<byte>, out: seq<byte>, w: nat, h: nat, x: nat, y: nat)
    requires Holds(bitmapData, w, h) && Holds(out, w, h) && x < w && y < h
    requires At(out, w, h, x, h - 1 - y) == Opaque(At(bitmapData, w, h, x, y))
    ensures ImagePixel(bitmapData, out, w, h, x, y)
  {
    hide At;
    PixelBytes(bitmapData, w, h, x, y);
    PixelBytes(out, w, h, x, h - 1 - y);
  }

  lemma PlainBytes(img: seq<byte>, out: seq<byte>, w: nat, h: nat, x: nat, y: nat)
    requires Holds(img, w, h) && Holds(out, w, h) && x < w && y < h
    requires At(out, w, h, x, h - 1 - y) == Plain(At(img, w, h, x, y))
    ensures BitmapPixel(img, out, w, h, x, y)
  {
    hide At;
    PixelBytes(img, w, h, x, y);
    PixelBytes(out, w, h, x, h - 1 - y);
  }

  /** ImageToBitmap after the PNG decoding. */
  method ImageToBitmap(img: seq<byte>, w: nat, h: nat) returns (bitmapData: array<byte>)
    requires Holds(img, w, h)
    ensures fresh(bitmapData) && Holds(bitmapData[..], w, h)
    ensures forall x: nat, y: nat :: x < w && y < h ==>
              At(bitmapData[..], w, h, x, h - 1 - y) == Plain(At(img, w, h, x, y))
    ensures forall x: nat, y: nat :: x < w && y < h ==> BitmapPixel(img, bitmapData[..], w, h, x, y)
  {
    hide At, Offset, BitmapPixel;
    var turned := RotateImage(img, w, h);
    ghost var rotated := turned[..];
    var mirrored := MirrorHorizontal(turned[..], w, h);
    var rgba := mirrored[..];
    bitmapData := new byte[4 * (w * h)](_ => 0);
    for y := 0 to h
      invariant Holds(bitmapData[..], w, h)
      invariant forall u: nat, v: nat :: u < w && v < h && Before(u, v, 0, y) ==>
                  At(bitmapData[..], w, h, u, v) == Plain(At(rgba, w, h, u, v))
    {
      for x := 0 to w
        invariant Holds(bitmapData[..], w, h)
        invariant forall u: nat, v: nat :: u < w && v < h && Before(u, v, x, y) ==>
                    At(bitmapData[..], w, h, u, v) == Plain(At(rgba, w, h, u, v))
      {
        Set(bitmapData, w, h, x, y, Plain(At(rgba, w, h, x, y)));
      }
    }
    forall x: nat, y: nat | x < w && y < h
      ensures At(bitmapData[..], w, h, x, h - 1 - y) == Plain(At(img, w, h, x, y))
    {
      assert At(rotated, w, h, w - 1 - x, h - 1 - y) == At(img, w, h, x, y);
      assert At(rgba, w, h, w - 1 - (w - 1 - x), h - 1 - y) == At(rotated, w, h, w - 1 - x, h - 1 - y);
    }
    forall x: nat, y: nat | x < w && y < h
      ensures BitmapPixel(img, bitmapData[..], w, h, x, y)
    {
      PlainBytes(img, bitmapData[..], w, h, x, y);
    }
  }

  // ---- Composition ----

  /** Rotating by 180 degrees and mirroring, in either order, is the vertical flip. */
  lemma RotateMirrorIsFlip(img: seq<byte>, mid: seq<byte>, out: seq<byte>, w: nat, h: nat)
    requires Holds(img, w, h) && Holds(mid, w, h) && Holds(out, w, h)
    requires (Rotated(img, mid, w, h) && Mirrored(mid, out, w, h)) || (Mirrored(img, mid, w, h) && Rotated(mid, out, w, h))
    ensures Flipped(img, out, w, h)
  {
    hide At, Offset;
    forall x: nat, y: nat | x < w && y < h
      ensures At(out, w, h, x, h - 1 - y) == At(img, w, h, x, y)
    {
      var u := w - 1 - x;
      assert w - 1 - u == x;
      if Rotated(img, mid, w, h) && Mirrored(mid, out, w, h) {
        assert At(out, w, h, w - 1 - u, h - 1 - y) == At(mid, w, h, u, h - 1 - y);
        assert At(mid, w, h, w - 1 - x, h - 1 - y) == At(img, w, h, x, y);
      } else {
        assert At(out, w, h, w - 1 - u, h - 1 - y) == At(mid, w, h, u, y);
        assert At(mid, w, h, w - 1 - x, y) == At(img, w, h, x, y);
      }
    }
  }

  lemma QuotientBelow(w: nat, h: nat, y: nat, p: nat)
    requires w * y <= p < w * h
    ensures y < h
  {
    var d := h - y;
    assert w * d == w * h - w * y;
  }

  /** Each byte of an image belongs to one pixel. */
  lemma ByteOfPixel(pix: seq<byte>, w: nat, h: nat, k: nat) returns (x: nat, y: nat)
    requires Holds(pix, w, h) && k < |pix|
    ensures x < w && y < h && Offset(w, h, x, y) == k - k % 4
    ensures At(pix, w, h, x, y)[k % 4] == pix[k]
  {
    var p := k / 4;
    assert p < w * h;
    assert w != 0;
    x, y := p % w, p / w;
    assert p == w * y + x;
    QuotientBelow(w, h, y, p);
    assert y * w == w * y;
  }

  /** Two images with equal pixels are equal. */
  lemma PixelsDecide(a: seq<byte>, b: seq<byte>, w: nat, h: nat)
    requires Holds(a, w, h) && Holds(b, w, h)
    requires forall x: nat, y: nat :: x < w && y < h ==> At(a, w, h, x, y) == At(b, w, h, x, y)
    ensures a == b
  {
    forall k | 0 <= k < |a|
      ensures a[k] == b[k]
    {
      var x, y := ByteOfPixel(a, w, h, k);
      var o := Offset(w, h, x, y);
      assert At(b, w, h, x, y)[k % 4] == b[o + k % 4];
    }
  }

  /** The vertical flip is its own inverse. */
  lemma FlipTwice(img: seq<byte>, mid: seq<byte>, out: seq<byte>, w: nat, h: nat)
    requires Holds(img, w, h) && Holds(mid, w, h) && Holds(out, w, h)
    requires Flipped(img, mid, w, h) && Flipped(mid, out, w, h)
    ensures out == img
  {
    hide At, Offset;
    forall x: nat, y: nat | x < w && y < h
      ensures At(out, w, h, x, y) == At(img, w, h, x, y)
    {
      var v := h - 1 - y;
      assert h - 1 - v == y;
      assert At(out, w, h, x, h - 1 - v) == At(mid, w, h, x, v);
      assert At(mid, w, h, x, h - 1 - y) == At(img, w, h, x, y);
    }
    PixelsDecide(out, img, w, h);
  }

  /** Bitmap to image and back: with PNG lossless, every B, G and R byte is restored and every
      fourth byte is 0. */
  method BitmapRoundTrip(bitmapData: seq<byte>, w: nat, h: nat) returns (back: array<byte>)
    requires Holds(bitmapData, w, h)
    ensures back.Length == |bitmapData|
    ensures forall k :: 0 <= k < |bitmapData| ==> back[k] == if k % 4 == 3 then 0 else bitmapData[k]
  {
    hide At, Offset, ImagePixel, BitmapPixel;
    var image := BitmapToImage(bitmapData, w, h);
    back := ImageToBitmap(image[..], w, h);
    ghost var result := back[..];
    forall x: nat, y: nat | x < w && y < h
      ensures At(result, w, h, x, y) == Plain(Opaque(At(bitmapData, w, h, x, y)))
    {
      var v := h - 1 - y;
      assert h - 1 - v == y;
      assert At(result, w, h, x, h - 1 - v) == Plain(At(image[..], w, h, x, v));
      assert At(image[..], w, h, x, h - 1 - y) == Opaque(At(bitmapData, w, h, x, y));
    }
    forall k | 0 <= k < |bitmapData|
      ensures back[k] == if k % 4 == 3 then 0 else bitmapData[k]
    {
      var x, y := ByteOfPixel(bitmapData, w, h, k);
      var u, v := ByteOfPixel(result, w, h, k);
      SamePixel(w, h, x, y, u, v);
    }
  }

  lemma SamePixel(w: nat, h: nat, x: nat, y: nat, u: nat, v: nat)
    requires x < w && y < h && u < w && v < h && Offset(w, h, x, y) == Offset(w, h, u, v)
    ensures x == u && y == v
  {
    if (x, y) != (u, v) {
      OffsetsApart(w, h, x, y, u, v);
    }
  }
}
