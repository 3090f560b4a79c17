/** The Mode 13h framebuffer of internal/vga/framebuffer.go: 320x200 palette
    indices, a palette, and the RGBA conversion buffer. */
module Framebuffers {
  import opened GoNum
  import opened Palettes

  const Width := 320
  const Height := 200
  const Size := Width * Height

  /** Column and row of pixel index `i`. */
  function Col(i: int): int { i % Width }

  function Row(i: int): int { i / Width }

  /** Pixel (x, y) sits at index y*Width + x. */
  lemma Coords(x: int, y: int)
    requires 0 <= x < Width && 0 <= y
    ensures Col(y * Width + x) == x && Row(y * Width + x) == y
  {
  }

  /** Index `i` is on row `y`, between columns `x0` and `x1` in either order: what `HLine` paints. */
  predicate OnHLine(i: int, x0: int, x1: int, y: int)
  {
    0 <= y < Height && Row(i) == y && Min(x0, x1) <= Col(i) <= Max(x0, x1)
  }

  /** Index `i` is in column `x`, between rows `y0` and `y1` in either order: what `VLine` paints. */
  predicate OnVLine(i: int, x: int, y0: int, y1: int)
  {
    0 <= x < Width && Col(i) == x && Min(y0, y1) <= Row(i) <= Max(y0, y1)
  }

  /** What `FillRect(x0, y0, w, h)` paints: rows y0..y0+h-1 of `HLine(x0, x0+w-1)`. */
  predicate InRect(i: int, x0: int, y0: int, w: int, h: int)
  {
    y0 <= Row(i) < y0 + h && OnHLine(i, x0, x0 + w - 1, Row(i))
  }

  /** Channel `k` (R, G, B, A for 0..3) of a colour. */
  function Channel(c: Color, k: int): byte
  {
    if k == 0 then c.r else if k == 1 then c.g else if k == 2 then c.b else c.a
  }

  class Framebuffer {
    const pixels: array<byte>
    var palette: Palette
    const rgba: array<byte>

    predicate Valid()
      reads this
    {
      pixels.Length == Size && rgba.Length == Size * 4 && pixels != rgba
    }

    /** `NewFramebuffer`: all pixels 0, the given palette. */
    constructor (pal: Palette)
      ensures Valid() && fresh(pixels) && fresh(rgba)
      ensures palette == pal
      ensures forall i :: 0 <= i < Size ==> pixels[i] == 0
    {
      pixels := new byte[Size](_ => 0);
      rgba := new byte[Size * 4](_ => 0);
      palette := pal;
    }

    /** The pixel at (x, y), without a bounds check beyond the array's own. */
    function GetPixel(x: int, y: int): (c: byte)
      requires Valid() && 0 <= y * Width + x < Size
      reads this, pixels
      ensures c == pixels[y * Width + x]
    {
      pixels[y * Width + x]
    }

    /** `Clear`: every pixel becomes `c`. */
    method Clear(c: byte)
      requires Valid()
      modifies pixels
      ensures forall i :: 0 <= i < Size ==> pixels[i] == c
    {
      for i := 0 to Size
        invariant forall j :: 0 <= j < i ==> pixels[j] == c
      {
        pixels[i] := c;
      }
    }

    /** `SetPixel`: unchecked write at (x, y); the index must be inside the array. */
    method SetPixel(x: int, y: int, c: byte)
      requires Valid() && 0 <= y * Width + x < Size
      modifies pixels
      ensures GetPixel(x, y) == c
      ensures forall i :: 0 <= i < Size && i != y * Width + x ==> pixels[i] == old(pixels[i])
    {
      pixels[y * Width + x] := c;
    }

    /** `SetPixelSafe`: writes (x, y) only when it lies on the screen. */
    method SetPixelSafe(x: int, y: int, c: byte)
      requires Valid()
      modifies pixels
      ensures 0 <= x < Width && 0 <= y < Height ==> pixels[y * Width + x] == c
      ensures forall i :: 0 <= i < Size && !(0 <= x < Width && 0 <= y < Height && i == y * Width + x) ==>
        pixels[i] == old(pixels[i])
    {
      if x >= 0 && x < Width && y >= 0 && y < Height {
        pixels[y * Width + x] := c;
      }
    }

    /** `HLine`: paints row y between x0 and x1 (either order), clipped to the screen. */
    method HLine(x0: int, x1: int, y: int, c: byte)
      requires Valid()
      modifies pixels
      ensures forall i :: 0 <= i < Size ==> pixels[i] == if OnHLine(i, x0, x1, y) then c else old(pixels[i])
    {
      if y < 0 || y >= Height {
        return;
      }
      var lo, hi := x0, x1;
      if lo > hi {
        lo, hi := hi, lo;
      }
      if lo < 0 {
        lo := 0;
      }
      if hi >= Width {
        hi := Width - 1;
      }
      var offset := y * Width;
      var x := lo;
      while x <= hi
        invariant lo <= x && (lo <= hi ==> x <= hi + 1) && (hi < lo ==> x == lo)
        invariant forall i :: 0 <= i < Size ==>
          pixels[i] == if Row(i) == y && lo <= Col(i) < x then c else old(pixels[i])
      {
        Coords(x, y);
        pixels[offset + x] := c;
        x := x + 1;
      }
      forall i | 0 <= i < Size
        ensures (Row(i) == y && lo <= Col(i) < x) == OnHLine(i, x0, x1, y)
      {
        assert 0 <= Col(i) < Width;
      }
    }

    /** `VLine`: paints column x between y0 and y1 (either order), clipped to the screen. */
    method VLine(x: int, y0: int, y1: int, c: byte)
      requires Valid()
      modifies pixels
      ensures forall i :: 0 <= i < Size ==> pixels[i] == if OnVLine(i, x, y0, y1) then c else old(pixels[i])
    {
      if x < 0 || x >= Width {
        return;
      }
      var lo, hi := y0, y1;
      if lo > hi {
        lo, hi := hi, lo;
      }
      if lo < 0 {
        lo := 0;
      }
      if hi >= Height {
        hi := Height - 1;
      }
      var y := lo;
      while y <= hi
        invariant lo <= y && (lo <= hi ==> y <= hi + 1) && (hi < lo ==> y == lo)
        invariant forall i :: 0 <= i < Size ==>
          pixels[i] == if Col(i) == x && lo <= Row(i) < y then c else old(pixels[i])
      {
        Coords(x, y);
        pixels[y * Width + x] := c;
        y := y + 1;
      }
      forall i | 0 <= i < Size
        ensures (Col(i) == x && lo <= Row(i) < y) == OnVLine(i, x, y0, y1)
      {
        assert 0 <= Row(i) < Height;
      }
    }

    /** `FillRect`: one `HLine(x0, x0+w-1, y)` per row y in y0..y0+h-1. */
    method FillRect(x0: int, y0: int, w: int, h: int, c: byte)
      requires Valid()
      modifies pixels
      ensures forall i :: 0 <= i < Size ==> pixels[i] == if InRect(i, x0, y0, w, h) then c else old(pixels[i])
    {
      var y := y0;
      while y < y0 + h
        invariant if h <= 0 then y == y0 else y0 <= y <= y0 + h
        invariant forall i :: 0 <= i < Size ==>
          pixels[i] == if y0 <= Row(i) < y && OnHLine(i, x0, x0 + w - 1, Row(i)) then c else old(pixels[i])
      {
        HLine(x0, x0 + w - 1, y, c);
        y := y + 1;
      }
    }

    /** `RGBA`: bytes 4i..4i+3 of the conversion buffer become the channels of
        the palette colour of pixel i, and all of them are returned. */
    method RGBA() returns (out: seq<byte>)
      requires Valid()
      modifies rgba
      ensures |out| == Size * 4 && out == rgba[..]
      ensures forall j :: 0 <= j < Size * 4 ==> out[j] == Channel(palette[pixels[j / 4]], j % 4)
    {
      for i := 0 to Size
        invariant forall j :: 0 <= j < 4 * i ==> rgba[j] == Channel(palette[pixels[j / 4]], j % 4)
      {
        var c := palette[pixels[i]];
        var off := i * 4;
        rgba[off] := c.r;
        rgba[off + 1] := c.g;
        rgba[off + 2] := c.b;
        rgba[off + 3] := c.a;
      }
      out := rgba[..];
    }

    /** `SetPalette`: replaces the palette. */
    method SetPalette(pal: Palette)
      modifies this`palette
      ensures palette == pal
    {
      palette := pal;
    }

    /** `SetPaletteColor`: replaces one entry and no other. */
    method SetPaletteColor(index: byte, c: Color)
      modifies this`palette
      ensures palette[index] == c
      ensures forall k :: 0 <= k < 256 && k != index as int ==> palette[k] == old(palette[k])
    {
      palette := palette[index as int := c];
    }

    /** `CopyFrom`: takes the other framebuffer's pixels; the palette is untouched. */
    method CopyFrom(src: Framebuffer)
      requires Valid() && src.Valid()
      modifies pixels
      ensures pixels[..] == old(src.pixels[..])
    {
      var from := src.pixels[..];
      for i := 0 to Size
        invariant forall j :: 0 <= j < i ==> pixels[j] == from[j]
      {
        pixels[i] := from[i];
      }
      assert pixels[..] == from;
    }
  }

  /** Because of the endpoint swap, a zero-width rectangle still paints the two
      columns x0-1 and x0 of every row it covers. */
  lemma ZeroWidthRect(x0: int, y0: int, h: int, x: int, y: int)
    requires 1 <= x0 < Width && 0 <= y0 <= y < y0 + h && y < Height
    requires x == x0 - 1 || x == x0
    ensures InRect(y * Width + x, x0, y0, 0, h)
  {
    Coords(x, y);
  }

  /** A rectangle with no height paints nothing. */
  lemma EmptyRect(x0: int, y0: int, w: int, h: int, i: int)
    requires h <= 0
    ensures !InRect(i, x0, y0, w, h)
  {
  }
}
