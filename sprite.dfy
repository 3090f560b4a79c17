/** Sprites of internal/vga/sprite.go: small palette-index bitmaps, their
    blitters onto the framebuffer (colour 0 is transparent), and the 8x8
    sprite of a font glyph. */
module Sprites {
  import opened GoNum
  import opened Framebuffers

  /** One pixel store: index `at` receives `value`. */
  datatype Write = Write(at: int, value: byte)

  /** Every write lands inside a buffer of `n` pixels. */
  predicate Inside(ws: seq<Write>, n: int)
  {
    forall k :: 0 <= k < |ws| ==> 0 <= ws[k].at < n
  }

  /** The buffer `p` after the writes `ws`, performed in order. */
  function Apply(p: seq<byte>, ws: seq<Write>): (q: seq<byte>)
    requires Inside(ws, |p|)
    ensures |q| == |p|
  {
    if ws == [] then p
    else Apply(p, ws[..|ws| - 1])[ws[|ws| - 1].at := ws[|ws| - 1].value]
  }

  /** Performing `a` then `b` is performing `a + b`. */
  lemma {:induction false} ApplyAppend(p: seq<byte>, a: seq<Write>, b: seq<Write>)
    requires Inside(a, |p|) && Inside(b, |p|)
    ensures Inside(a + b, |p|)
    ensures Apply(p, a + b) == Apply(Apply(p, a), b)
  {
    if b == [] {
      assert a + b == a;
    } else {
      assert (a + b)[..|a + b| - 1] == a + b[..|b| - 1];
      ApplyAppend(p, a, b[..|b| - 1]);
    }
  }

  /** A pixel no write targets keeps its value. */
  lemma {:induction false} ApplyUntouched(p: seq<byte>, ws: seq<Write>, i: int)
    requires Inside(ws, |p|) && 0 <= i < |p|
    requires forall k :: 0 <= k < |ws| ==> ws[k].at != i
    ensures Apply(p, ws)[i] == p[i]
  {
    if ws != [] {
      ApplyUntouched(p, ws[..|ws| - 1], i);
    }
  }

  /** Screen index of sprite pixel (fx, fy) drawn with its corner at (x, y). */
  function Target(x: int, y: int, fx: int, fy: int): int
  {
    (y + fy) * Width + (x + fx)
  }

  /** The contents of a sprite as a value: its size and row-major pixels. */
  datatype Image = Image(width: int, height: int, data: seq<byte>)

  /** Pixel (fx, fy) of an image, and 0 outside it. */
  function PixelAt(img: Image, fx: int, fy: int): byte
  {
    if 0 <= fx < img.width && 0 <= fy < img.height && 0 <= fy * img.width + fx < |img.data|
    then img.data[fy * img.width + fx] else 0
  }

  class Sprite {
    const width: int
    const height: int
    const pixels: array<byte>

    predicate Valid()
      reads this
    {
      width * height >= 0 && pixels.Length == width * height
    }

    /** `NewSprite`: a blank w x h sprite. */
    constructor Blank(w: int, h: int)
      requires w * h >= 0
      ensures Valid() && width == w && height == h && fresh(pixels)
      ensures forall i :: 0 <= i < w * h ==> pixels[i] == 0
    {
      width, height := w, h;
      pixels := new byte[w * h](_ => 0);
    }

    /** `NewSpriteFromData`: the first w*h bytes of `data`, zero-padded when it is short. */
    constructor FromData(w: int, h: int, data: seq<byte>)
      requires w * h >= 0
      ensures Valid() && width == w && height == h && fresh(pixels)
      ensures |data| < w * h ==> pixels[..] == data + seq(w * h - |data|, _ => 0)
      ensures |data| >= w * h ==> pixels[..] == data[..w * h]
    {
      width, height := w, h;
      var a: array<byte>;
      if |data| < w * h {
        a := new byte[w * h](i => if 0 <= i < |data| then data[i] else 0);
        assert a[..] == data + seq(w * h - |data|, _ => 0);
      } else {
        a := new byte[w * h](i => if 0 <= i < w * h then data[i] else 0);
        assert a[..] == data[..w * h];
      }
      pixels := a;
    }

    /** The sprite's current contents. */
    function Snapshot(): Image
      reads this, pixels
    {
      Image(width, height, pixels[..])
    }

    /** `Sprite.GetPixel`: the pixel at (x, y), or 0 outside the sprite. */
    function GetPixel(x: int, y: int): (c: byte)
      requires Valid()
      reads this, pixels
      ensures c == PixelAt(Snapshot(), x, y)
      ensures !(0 <= x < width && 0 <= y < height) ==> c == 0
      ensures 0 <= x < width && 0 <= y < height ==> 0 <= y * width + x < pixels.Length && c == pixels[y * width + x]
    {
      if x < 0 || x >= width || y < 0 || y >= height then 0
      else
        SpriteIndex(x, y, width, height);
        pixels[y * width + x]
    }

    /** `Sprite.SetPixel`: writes (x, y) inside the sprite; outside it does nothing. */
    method SetPixel(x: int, y: int, c: byte)
      requires Valid()
      modifies pixels
      ensures 0 <= x < width && 0 <= y < height ==> GetPixel(x, y) == c
      ensures forall i :: 0 <= i < pixels.Length && !(0 <= x < width && 0 <= y < height && i == y * width + x) ==>
        pixels[i] == old(pixels[i])
    {
      if x < 0 || x >= width || y < 0 || y >= height {
        return;
      }
      SpriteIndex(x, y, width, height);
      pixels[y * width + x] := c;
    }
  }

  /** Row-major indexing stays inside a w x h sprite. */
  lemma SpriteIndex(x: int, y: int, w: int, h: int)
    requires 0 <= x < w && 0 <= y < h
    ensures 0 <= y * w + x < w * h
  {
    assert y * w + x < y * w + w == (y + 1) * w;
    assert (y + 1) * w <= h * w;
  }

  /** The stores `DrawSprite` makes for columns 0..n-1 of sprite row fy: one per
      non-zero pixel, left to right. */
  function RowWrites(img: Image, x: int, y: int, fy: int, n: int): seq<Write>
  {
    if n <= 0 then []
    else
      var rest := RowWrites(img, x, y, fy, n - 1);
      var px := PixelAt(img, n - 1, fy);
      if px != 0 then rest + [Write(Target(x, y, n - 1, fy), px)] else rest
  }

  /** The stores `DrawSprite` makes for sprite rows 0..m-1, top to bottom. */
  function SpriteWrites(img: Image, x: int, y: int, m: int): seq<Write>
  {
    if m <= 0 then [] else SpriteWrites(img, x, y, m - 1) + RowWrites(img, x, y, m - 1, img.width)
  }

  /** The unchecked `SetPixel` in the blitters requires every non-zero sprite
      pixel to land inside the framebuffer array. */
  predicate Fits(img: Image, x: int, y: int)
  {
    forall fx, fy :: 0 <= fx < img.width && 0 <= fy < img.height && PixelAt(img, fx, fy) != 0 ==>
      0 <= Target(x, y, fx, fy) < Size
  }

  /** Index `i` is the target of a non-zero pixel among columns 0..n-1 of row fy. */
  predicate HitInRow(img: Image, x: int, y: int, fy: int, n: int, i: int)
  {
    exists fx :: 0 <= fx < n && PixelAt(img, fx, fy) != 0 && Target(x, y, fx, fy) == i
  }

  /** Index `i` is the target of a non-zero pixel among rows 0..m-1. */
  predicate Hit(img: Image, x: int, y: int, m: int, i: int)
  {
    exists fy :: 0 <= fy < m && HitInRow(img, x, y, fy, img.width, i)
  }

  /** Each store of a row goes, with a non-zero value, to the target of one of its non-zero pixels. */
  lemma {:induction false} RowWritesHit(img: Image, x: int, y: int, fy: int, n: int)
    ensures forall k :: 0 <= k < |RowWrites(img, x, y, fy, n)| ==>
      RowWrites(img, x, y, fy, n)[k].value != 0 && HitInRow(img, x, y, fy, n, RowWrites(img, x, y, fy, n)[k].at)
  {
    if n > 0 {
      RowWritesHit(img, x, y, fy, n - 1);
      var rest := RowWrites(img, x, y, fy, n - 1);
      var ws := RowWrites(img, x, y, fy, n);
      forall k | 0 <= k < |ws|
        ensures ws[k].value != 0 && HitInRow(img, x, y, fy, n, ws[k].at)
      {
        if k < |rest| {
          assert ws[k] == rest[k];
          var fx :| 0 <= fx < n - 1 && PixelAt(img, fx, fy) != 0 && Target(x, y, fx, fy) == rest[k].at;
        } else {
          assert ws[k] == Write(Target(x, y, n - 1, fy), PixelAt(img, n - 1, fy));
        }
      }
    }
  }

  /** Each store of the whole blit goes, with a non-zero value, to the target of a non-zero pixel. */
  lemma {:induction false} SpriteWritesHit(img: Image, x: int, y: int, m: int)
    ensures forall k :: 0 <= k < |SpriteWrites(img, x, y, m)| ==>
      SpriteWrites(img, x, y, m)[k].value != 0 && Hit(img, x, y, m, SpriteWrites(img, x, y, m)[k].at)
  {
    if m > 0 {
      SpriteWritesHit(img, x, y, m - 1);
      RowWritesHit(img, x, y, m - 1, img.width);
      var rest := SpriteWrites(img, x, y, m - 1);
      var row := RowWrites(img, x, y, m - 1, img.width);
      var ws := SpriteWrites(img, x, y, m);
      forall k | 0 <= k < |ws|
        ensures ws[k].value != 0 && Hit(img, x, y, m, ws[k].at)
      {
        if k < |rest| {
          assert ws[k] == rest[k];
          var fy :| 0 <= fy < m - 1 && HitInRow(img, x, y, fy, img.width, rest[k].at);
        } else {
          assert ws[k] == row[k - |rest|];
          assert HitInRow(img, x, y, m - 1, img.width, ws[k].at);
        }
      }
    }
  }

  /** When the sprite fits, every store of the first m rows lands in the framebuffer. */
  lemma SpriteWritesInside(img: Image, x: int, y: int, m: int)
    requires Fits(img, x, y) && m <= img.height
    ensures Inside(SpriteWrites(img, x, y, m), Size)
  {
    SpriteWritesHit(img, x, y, m);
    var ws := SpriteWrites(img, x, y, m);
    forall k | 0 <= k < |ws|
      ensures 0 <= ws[k].at < Size
    {
      var fy :| 0 <= fy < m && HitInRow(img, x, y, fy, img.width, ws[k].at);
      var fx :| 0 <= fx < img.width && PixelAt(img, fx, fy) != 0 && Target(x, y, fx, fy) == ws[k].at;
    }
  }

  /** When the sprite fits, every store of the first n columns of row fy lands in the framebuffer. */
  lemma RowWritesInside(img: Image, x: int, y: int, fy: int, n: int)
    requires Fits(img, x, y) && 0 <= fy < img.height && n <= img.width
    ensures Inside(RowWrites(img, x, y, fy, n), Size)
  {
    RowWritesHit(img, x, y, fy, n);
    var ws := RowWrites(img, x, y, fy, n);
    forall k | 0 <= k < |ws|
      ensures 0 <= ws[k].at < Size
    {
      var fx :| 0 <= fx < n && PixelAt(img, fx, fy) != 0 && Target(x, y, fx, fy) == ws[k].at;
    }
  }

  /** Colour 0 is transparent: a framebuffer pixel that no non-zero sprite
      pixel targets keeps its value through the blit. */
  lemma BlitTransparent(p: seq<byte>, img: Image, x: int, y: int, i: int)
    requires Fits(img, x, y) && |p| == Size && 0 <= i < Size
    requires !Hit(img, x, y, img.height, i)
    ensures Inside(SpriteWrites(img, x, y, img.height), Size)
    ensures Apply(p, SpriteWrites(img, x, y, img.height))[i] == p[i]
  {
    SpriteWritesInside(img, x, y, img.height);
    SpriteWritesHit(img, x, y, img.height);
    ApplyUntouched(p, SpriteWrites(img, x, y, img.height), i);
  }

  /** Within one row, the store of pixel fx is not overwritten by a later column. */
  lemma {:induction false} RowExact(q: seq<byte>, img: Image, x: int, y: int, fx: int, fy: int, n: int)
    requires Fits(img, x, y) && |q| == Size
    requires 0 <= fx < n <= img.width && 0 <= fy < img.height && PixelAt(img, fx, fy) != 0
    ensures Inside(RowWrites(img, x, y, fy, n), Size)
    ensures Apply(q, RowWrites(img, x, y, fy, n))[Target(x, y, fx, fy)] == PixelAt(img, fx, fy)
  {
    RowWritesInside(img, x, y, fy, n);
    RowWritesInside(img, x, y, fy, n - 1);
    if fx < n - 1 {
      RowExact(q, img, x, y, fx, fy, n - 1);
    }
  }

  /** Pixels of different sprite rows that are less than a screen width apart
      horizontally never share a target. */
  lemma TargetsApart(x: int, y: int, fx: int, fy: int, gx: int, gy: int)
    requires 0 <= fx < Width && 0 <= gx < Width && fy != gy
    ensures Target(x, y, fx, fy) != Target(x, y, gx, gy)
  {
    if fy < gy {
      assert Target(x, y, gx, gy) - Target(x, y, fx, fy) == (gy - fy) * Width + gx - fx;
      assert (gy - fy) * Width >= Width;
    } else {
      assert Target(x, y, fx, fy) - Target(x, y, gx, gy) == (fy - gy) * Width + fx - gx;
      assert (fy - gy) * Width >= Width;
    }
  }

  /** The stores of sprite row r leave the target of a pixel of another row alone,
      when the sprite is no wider than the screen. */
  lemma OtherRowUntouched(q: seq<byte>, img: Image, x: int, y: int, fx: int, fy: int, r: int)
    requires Fits(img, x, y) && |q| == Size && img.width <= Width
    requires 0 <= fx < img.width && 0 <= r < img.height && fy != r && 0 <= Target(x, y, fx, fy) < Size
    ensures Inside(RowWrites(img, x, y, r, img.width), Size)
    ensures Apply(q, RowWrites(img, x, y, r, img.width))[Target(x, y, fx, fy)] == q[Target(x, y, fx, fy)]
  {
    RowWritesInside(img, x, y, r, img.width);
    RowWritesHit(img, x, y, r, img.width);
    var row := RowWrites(img, x, y, r, img.width);
    forall k | 0 <= k < |row|
      ensures row[k].at != Target(x, y, fx, fy)
    {
      var gx :| 0 <= gx < img.width && PixelAt(img, gx, r) != 0 && Target(x, y, gx, r) == row[k].at;
      TargetsApart(x, y, fx, fy, gx, r);
    }
    ApplyUntouched(q, row, Target(x, y, fx, fy));
  }

  /** When the sprite is no wider than the screen, distinct sprite pixels have
      distinct targets, so every non-zero pixel ends up at its target. */
  lemma {:induction false} BlitExact(p: seq<byte>, img: Image, x: int, y: int, fx: int, fy: int, m: int)
    requires Fits(img, x, y) && |p| == Size && img.width <= Width
    requires 0 <= fx < img.width && 0 <= fy < m <= img.height && PixelAt(img, fx, fy) != 0
    ensures Inside(SpriteWrites(img, x, y, m), Size)
    ensures Apply(p, SpriteWrites(img, x, y, m))[Target(x, y, fx, fy)] == PixelAt(img, fx, fy)
  {
    SpriteWritesInside(img, x, y, m - 1);
    RowWritesInside(img, x, y, m - 1, img.width);
    var done := SpriteWrites(img, x, y, m - 1);
    var row := RowWrites(img, x, y, m - 1, img.width);
    var t := Target(x, y, fx, fy);
    var q := Apply(p, done);
    if fy == m - 1 {
      RowExact(q, img, x, y, fx, fy, img.width);
    } else {
      BlitExact(p, img, x, y, fx, fy, m - 1);
      OtherRowUntouched(q, img, x, y, fx, fy, m - 1);
    }
    assert Apply(q, row)[t] == PixelAt(img, fx, fy);
    ApplyAppend(p, done, row);
  }

  /** One row of `DrawSprite`: column by column, each non-zero pixel of sprite
      row fy is stored at its target; zero pixels are skipped. */
  method DrawSpriteRow(fb: Framebuffer, x: int, y: int, s: Sprite, fy: int)
    requires fb.Valid() && s.Valid() && fb.pixels != s.pixels
    requires Fits(s.Snapshot(), x, y) && 0 <= fy < s.height
    modifies fb.pixels
    ensures Inside(RowWrites(s.Snapshot(), x, y, fy, s.width), Size)
    ensures fb.pixels[..] == Apply(old(fb.pixels[..]), RowWrites(s.Snapshot(), x, y, fy, s.width))
  {
    ghost var p0 := fb.pixels[..];
    ghost var img := s.Snapshot();
    var fx := 0;
    while fx < s.width
      invariant 0 <= fx <= s.width
      invariant Inside(RowWrites(img, x, y, fy, fx), Size)
      invariant fb.pixels[..] == Apply(p0, RowWrites(img, x, y, fy, fx))
    {
      var px := s.GetPixel(fx, fy);
      RowWritesInside(img, x, y, fy, fx + 1);
      if px != 0 {
        ghost var before := RowWrites(img, x, y, fy, fx);
        fb.SetPixel(x + fx, y + fy, px);
        assert RowWrites(img, x, y, fy, fx + 1) == before + [Write(Target(x, y, fx, fy), px)];
        assert fb.pixels[..] == Apply(p0, before)[Target(x, y, fx, fy) := px];
      }
      fx := fx + 1;
    }
  }

  /** `DrawSprite`: the sprite's rows top to bottom; the framebuffer ends up as
      the stores of every non-zero pixel, in loop order. */
  method DrawSprite(fb: Framebuffer, x: int, y: int, s: Sprite)
    requires fb.Valid() && s.Valid() && fb.pixels != s.pixels
    requires Fits(s.Snapshot(), x, y)
    modifies fb.pixels
    ensures Inside(SpriteWrites(s.Snapshot(), x, y, s.height), Size)
    ensures fb.pixels[..] == Apply(old(fb.pixels[..]), SpriteWrites(s.Snapshot(), x, y, s.height))
  {
    ghost var p0 := fb.pixels[..];
    ghost var img := s.Snapshot();
    var fy := 0;
    while fy < s.height
      invariant 0 <= fy <= Max(s.height, 0)
      invariant Inside(SpriteWrites(img, x, y, fy), Size)
      invariant fb.pixels[..] == Apply(p0, SpriteWrites(img, x, y, fy))
    {
      ghost var done := SpriteWrites(img, x, y, fy);
      ghost var row := RowWrites(img, x, y, fy, s.width);
      DrawSpriteRow(fb, x, y, s, fy);
      ApplyAppend(p0, done, row);
      assert SpriteWrites(img, x, y, fy + 1) == done + row;
      fy := fy + 1;
    }
    assert SpriteWrites(img, x, y, fy) == SpriteWrites(img, x, y, s.height);
  }

  /** Screen index of pixel (sx, sy) of the block that sprite pixel (fx, fy)
      becomes when drawn at scale `scale`. */
  function BlockTarget(x: int, y: int, scale: int, fx: int, fy: int, sx: int, sy: int): int
  {
    Target(x + fx * scale, y + fy * scale, sx, sy)
  }

  /** The stores of columns 0..n-1 of row sy of that block. */
  function BlockRowWrites(x: int, y: int, scale: int, fx: int, fy: int, px: byte, sy: int, n: int): seq<Write>
  {
    if n <= 0 then []
    else BlockRowWrites(x, y, scale, fx, fy, px, sy, n - 1) + [Write(BlockTarget(x, y, scale, fx, fy, n - 1, sy), px)]
  }

  /** The stores of rows 0..m-1 of that block. */
  function BlockWrites(x: int, y: int, scale: int, fx: int, fy: int, px: byte, m: int): seq<Write>
  {
    if m <= 0 then []
    else BlockWrites(x, y, scale, fx, fy, px, m - 1) + BlockRowWrites(x, y, scale, fx, fy, px, m - 1, scale)
  }

  /** The stores `DrawSpriteScaled` makes for columns 0..n-1 of sprite row fy:
      a whole block per non-zero pixel. */
  function ScaledRowWrites(img: Image, x: int, y: int, scale: int, fy: int, n: int): seq<Write>
  {
    if n <= 0 then []
    else
      var rest := ScaledRowWrites(img, x, y, scale, fy, n - 1);
      var px := PixelAt(img, n - 1, fy);
      if px != 0 then rest + BlockWrites(x, y, scale, n - 1, fy, px, scale) else rest
  }

  /** The stores `DrawSpriteScaled` makes for sprite rows 0..m-1. */
  function ScaledWrites(img: Image, x: int, y: int, scale: int, m: int): seq<Write>
  {
    if m <= 0 then [] else ScaledWrites(img, x, y, scale, m - 1) + ScaledRowWrites(img, x, y, scale, m - 1, img.width)
  }

  /** Index `i` lies in the block of sprite pixel (fx, fy). */
  predicate InBlock(x: int, y: int, scale: int, fx: int, fy: int, i: int)
  {
    exists sx, sy :: 0 <= sx < scale && 0 <= sy < scale && BlockTarget(x, y, scale, fx, fy, sx, sy) == i
  }

  /** Index `i` lies in the block of a non-zero pixel among columns 0..n-1 of row fy. */
  predicate ScaledHitInRow(img: Image, x: int, y: int, scale: int, fy: int, n: int, i: int)
  {
    exists fx :: 0 <= fx < n && PixelAt(img, fx, fy) != 0 && InBlock(x, y, scale, fx, fy, i)
  }

  /** Index `i` lies in the block of a non-zero pixel among rows 0..m-1. */
  predicate ScaledHit(img: Image, x: int, y: int, scale: int, m: int, i: int)
  {
    exists fy :: 0 <= fy < m && ScaledHitInRow(img, x, y, scale, fy, img.width, i)
  }

  /** The unchecked `SetPixel` requires every block of a non-zero pixel to lie inside the framebuffer array. */
  predicate ScaledFits(img: Image, x: int, y: int, scale: int)
  {
    forall fx, fy, sx, sy ::
      (0 <= fx < img.width && 0 <= fy < img.height && PixelAt(img, fx, fy) != 0 && 0 <= sx < scale && 0 <= sy < scale) ==>
      0 <= BlockTarget(x, y, scale, fx, fy, sx, sy) < Size
  }

  lemma {:induction false} BlockRowHit(x: int, y: int, scale: int, fx: int, fy: int, px: byte, sy: int, n: int)
    requires 0 <= sy < scale && n <= scale
    ensures forall k :: 0 <= k < |BlockRowWrites(x, y, scale, fx, fy, px, sy, n)| ==>
      BlockRowWrites(x, y, scale, fx, fy, px, sy, n)[k].value == px &&
      InBlock(x, y, scale, fx, fy, BlockRowWrites(x, y, scale, fx, fy, px, sy, n)[k].at)
  {
    if n > 0 {
      BlockRowHit(x, y, scale, fx, fy, px, sy, n - 1);
      var ws := BlockRowWrites(x, y, scale, fx, fy, px, sy, n);
      assert ws[|ws| - 1] == Write(BlockTarget(x, y, scale, fx, fy, n - 1, sy), px);
    }
  }

  /** Every store of a block writes the block's colour inside the block. */
  lemma {:induction false} BlockHit(x: int, y: int, scale: int, fx: int, fy: int, px: byte, m: int)
    requires m <= scale
    ensures forall k :: 0 <= k < |BlockWrites(x, y, scale, fx, fy, px, m)| ==>
      BlockWrites(x, y, scale, fx, fy, px, m)[k].value == px &&
      InBlock(x, y, scale, fx, fy, BlockWrites(x, y, scale, fx, fy, px, m)[k].at)
  {
    if m > 0 {
      BlockHit(x, y, scale, fx, fy, px, m - 1);
      BlockRowHit(x, y, scale, fx, fy, px, m - 1, scale);
      var rest := BlockWrites(x, y, scale, fx, fy, px, m - 1);
      var row := BlockRowWrites(x, y, scale, fx, fy, px, m - 1, scale);
      assert forall k :: |rest| <= k < |rest + row| ==> (rest + row)[k] == row[k - |rest|];
    }
  }

  lemma {:induction false} ScaledRowHit(img: Image, x: int, y: int, scale: int, fy: int, n: int)
    ensures forall k :: 0 <= k < |ScaledRowWrites(img, x, y, scale, fy, n)| ==>
      ScaledRowWrites(img, x, y, scale, fy, n)[k].value != 0 &&
      ScaledHitInRow(img, x, y, scale, fy, n, ScaledRowWrites(img, x, y, scale, fy, n)[k].at)
  {
    if n > 0 {
      ScaledRowHit(img, x, y, scale, fy, n - 1);
      var rest := ScaledRowWrites(img, x, y, scale, fy, n - 1);
      var px := PixelAt(img, n - 1, fy);
      var ws := ScaledRowWrites(img, x, y, scale, fy, n);
      if px != 0 {
        var block := BlockWrites(x, y, scale, n - 1, fy, px, scale);
        BlockHit(x, y, scale, n - 1, fy, px, scale);
        forall k | 0 <= k < |ws|
          ensures ws[k].value != 0 && ScaledHitInRow(img, x, y, scale, fy, n, ws[k].at)
        {
          if k < |rest| {
            assert ws[k] == rest[k];
            var gx :| 0 <= gx < n - 1 && PixelAt(img, gx, fy) != 0 && InBlock(x, y, scale, gx, fy, rest[k].at);
          } else {
            assert ws[k] == block[k - |rest|];
          }
        }
      } else {
        forall k | 0 <= k < |ws|
          ensures ws[k].value != 0 && ScaledHitInRow(img, x, y, scale, fy, n, ws[k].at)
        {
          var gx :| 0 <= gx < n - 1 && PixelAt(img, gx, fy) != 0 && InBlock(x, y, scale, gx, fy, rest[k].at);
        }
      }
    }
  }

  /** Every store of the scaled blit writes a non-zero colour inside the block of a non-zero pixel. */
  lemma {:induction false} ScaledWritesHit(img: Image, x: int, y: int, scale: int, m: int)
    ensures forall k :: 0 <= k < |ScaledWrites(img, x, y, scale, m)| ==>
      ScaledWrites(img, x, y, scale, m)[k].value != 0 &&
      ScaledHit(img, x, y, scale, m, ScaledWrites(img, x, y, scale, m)[k].at)
  {
    if m > 0 {
      ScaledWritesHit(img, x, y, scale, m - 1);
      ScaledRowHit(img, x, y, scale, m - 1, img.width);
      var rest := ScaledWrites(img, x, y, scale, m - 1);
      var row := ScaledRowWrites(img, x, y, scale, m - 1, img.width);
      var ws := ScaledWrites(img, x, y, scale, m);
      forall k | 0 <= k < |ws|
        ensures ws[k].value != 0 && ScaledHit(img, x, y, scale, m, ws[k].at)
      {
        if k < |rest| {
          assert ws[k] == rest[k];
          var fy :| 0 <= fy < m - 1 && ScaledHitInRow(img, x, y, scale, fy, img.width, rest[k].at);
        } else {
          assert ws[k] == row[k - |rest|];
          assert ScaledHitInRow(img, x, y, scale, m - 1, img.width, ws[k].at);
        }
      }
    }
  }

  /** When the scaled sprite fits, every store of the first m rows lands in the framebuffer. */
  lemma ScaledWritesInside(img: Image, x: int, y: int, scale: int, m: int)
    requires ScaledFits(img, x, y, scale) && m <= img.height
    ensures Inside(ScaledWrites(img, x, y, scale, m), Size)
  {
    ScaledWritesHit(img, x, y, scale, m);
    var ws := ScaledWrites(img, x, y, scale, m);
    forall k | 0 <= k < |ws|
      ensures 0 <= ws[k].at < Size
    {
      var fy :| 0 <= fy < m && ScaledHitInRow(img, x, y, scale, fy, img.width, ws[k].at);
      var fx :| 0 <= fx < img.width && PixelAt(img, fx, fy) != 0 && InBlock(x, y, scale, fx, fy, ws[k].at);
      var sx, sy :| 0 <= sx < scale && 0 <= sy < scale && BlockTarget(x, y, scale, fx, fy, sx, sy) == ws[k].at;
    }
  }

  /** When the scaled sprite fits, every store of the first n columns of row fy lands in the framebuffer. */
  lemma ScaledRowInside(img: Image, x: int, y: int, scale: int, fy: int, n: int)
    requires ScaledFits(img, x, y, scale) && 0 <= fy < img.height && n <= img.width
    ensures Inside(ScaledRowWrites(img, x, y, scale, fy, n), Size)
  {
    ScaledRowHit(img, x, y, scale, fy, n);
    var ws := ScaledRowWrites(img, x, y, scale, fy, n);
    forall k | 0 <= k < |ws|
      ensures 0 <= ws[k].at < Size
    {
      var fx :| 0 <= fx < n && PixelAt(img, fx, fy) != 0 && InBlock(x, y, scale, fx, fy, ws[k].at);
      var sx, sy :| 0 <= sx < scale && 0 <= sy < scale && BlockTarget(x, y, scale, fx, fy, sx, sy) == ws[k].at;
    }
  }

  /** The block of a non-zero pixel of a fitting sprite lies inside the framebuffer. */
  predicate BlockFits(x: int, y: int, scale: int, fx: int, fy: int)
  {
    forall sx, sy :: 0 <= sx < scale && 0 <= sy < scale ==> 0 <= BlockTarget(x, y, scale, fx, fy, sx, sy) < Size
  }

  /** The innermost loop of `DrawSpriteScaled`: row sy of the block of sprite pixel (fx, fy). */
  method DrawBlockRow(fb: Framebuffer, x: int, y: int, scale: int, fx: int, fy: int, px: byte, sy: int)
    requires fb.Valid() && scale >= 1 && 0 <= sy < scale && BlockFits(x, y, scale, fx, fy)
    modifies fb.pixels
    ensures Inside(BlockRowWrites(x, y, scale, fx, fy, px, sy, scale), Size)
    ensures fb.pixels[..] == Apply(old(fb.pixels[..]), BlockRowWrites(x, y, scale, fx, fy, px, sy, scale))
  {
    ghost var p0 := fb.pixels[..];
    for sx := 0 to scale
      invariant Inside(BlockRowWrites(x, y, scale, fx, fy, px, sy, sx), Size)
      invariant fb.pixels[..] == Apply(p0, BlockRowWrites(x, y, scale, fx, fy, px, sy, sx))
    {
      ghost var before := BlockRowWrites(x, y, scale, fx, fy, px, sy, sx);
      ghost var t := BlockTarget(x, y, scale, fx, fy, sx, sy);
      assert 0 <= t < Size;
      fb.SetPixel(x + fx * scale + sx, y + fy * scale + sy, px);
      assert BlockRowWrites(x, y, scale, fx, fy, px, sy, sx + 1) == before + [Write(t, px)];
    }
  }

  /** The inner two loops of `DrawSpriteScaled`: a scale x scale block of colour
      `px` for sprite pixel (fx, fy), row by row. */
  method DrawBlock(fb: Framebuffer, x: int, y: int, scale: int, fx: int, fy: int, px: byte)
    requires fb.Valid() && scale >= 1 && BlockFits(x, y, scale, fx, fy)
    modifies fb.pixels
    ensures Inside(BlockWrites(x, y, scale, fx, fy, px, scale), Size)
    ensures fb.pixels[..] == Apply(old(fb.pixels[..]), BlockWrites(x, y, scale, fx, fy, px, scale))
  {
    ghost var p0 := fb.pixels[..];
    for sy := 0 to scale
      invariant Inside(BlockWrites(x, y, scale, fx, fy, px, sy), Size)
      invariant fb.pixels[..] == Apply(p0, BlockWrites(x, y, scale, fx, fy, px, sy))
    {
      ghost var done := BlockWrites(x, y, scale, fx, fy, px, sy);
      ghost var row := BlockRowWrites(x, y, scale, fx, fy, px, sy, scale);
      DrawBlockRow(fb, x, y, scale, fx, fy, px, sy);
      ApplyAppend(p0, done, row);
      assert BlockWrites(x, y, scale, fx, fy, px, sy + 1) == done + row;
    }
  }

  /** One sprite row of `DrawSpriteScaled`: a block per non-zero pixel, left to right. */
  method DrawScaledRow(fb: Framebuffer, x: int, y: int, s: Sprite, scale: int, fy: int)
    requires fb.Valid() && s.Valid() && fb.pixels != s.pixels && scale >= 1
    requires ScaledFits(s.Snapshot(), x, y, scale) && 0 <= fy < s.height
    modifies fb.pixels
    ensures Inside(ScaledRowWrites(s.Snapshot(), x, y, scale, fy, s.width), Size)
    ensures fb.pixels[..] == Apply(old(fb.pixels[..]), ScaledRowWrites(s.Snapshot(), x, y, scale, fy, s.width))
  {
    ghost var p0 := fb.pixels[..];
    ghost var img := s.Snapshot();
    var fx := 0;
    while fx < s.width
      invariant 0 <= fx <= s.width
      invariant Inside(ScaledRowWrites(img, x, y, scale, fy, fx), Size)
      invariant fb.pixels[..] == Apply(p0, ScaledRowWrites(img, x, y, scale, fy, fx))
    {
      var px := s.GetPixel(fx, fy);
      if px != 0 {
        ghost var before := ScaledRowWrites(img, x, y, scale, fy, fx);
        ghost var block := BlockWrites(x, y, scale, fx, fy, px, scale);
        DrawBlock(fb, x, y, scale, fx, fy, px);
        ApplyAppend(p0, before, block);
        assert ScaledRowWrites(img, x, y, scale, fy, fx + 1) == before + block;
      }
      fx := fx + 1;
    }
  }

  /** The scale `DrawSpriteScaled` draws at: a non-positive scale counts as 1. */
  function EffectiveScale(scale: int): (k: int)
    ensures k >= 1 && (scale >= 1 ==> k == scale)
  {
    if scale <= 0 then 1 else scale
  }

  /** The two outer loops of `DrawSpriteScaled`: the sprite's rows top to bottom. */
  method DrawScaledRows(fb: Framebuffer, x: int, y: int, s: Sprite, k: int)
    requires fb.Valid() && s.Valid() && fb.pixels != s.pixels && k >= 1
    requires ScaledFits(s.Snapshot(), x, y, k)
    modifies fb.pixels
    ensures Inside(ScaledWrites(s.Snapshot(), x, y, k, s.height), Size)
    ensures fb.pixels[..] == Apply(old(fb.pixels[..]), ScaledWrites(s.Snapshot(), x, y, k, s.height))
  {
    ghost var p0 := fb.pixels[..];
    ghost var img := s.Snapshot();
    var fy := 0;
    while fy < s.height
      invariant 0 <= fy <= Max(s.height, 0)
      invariant Inside(ScaledWrites(img, x, y, k, fy), Size)
      invariant fb.pixels[..] == Apply(p0, ScaledWrites(img, x, y, k, fy))
    {
      ghost var done := ScaledWrites(img, x, y, k, fy);
      ghost var row := ScaledRowWrites(img, x, y, k, fy, s.width);
      DrawScaledRow(fb, x, y, s, k, fy);
      ApplyAppend(p0, done, row);
      assert ScaledWrites(img, x, y, k, fy + 1) == done + row;
      fy := fy + 1;
    }
    assert ScaledWrites(img, x, y, k, fy) == ScaledWrites(img, x, y, k, s.height);
  }

  /** `DrawSpriteScaled`: each non-zero pixel drawn as a block of the effective scale. */
  method DrawSpriteScaled(fb: Framebuffer, x: int, y: int, s: Sprite, scale: int)
    requires fb.Valid() && s.Valid() && fb.pixels != s.pixels
    requires ScaledFits(s.Snapshot(), x, y, EffectiveScale(scale))
    modifies fb.pixels
    ensures Inside(ScaledWrites(s.Snapshot(), x, y, EffectiveScale(scale), s.height), Size)
    ensures fb.pixels[..] == Apply(old(fb.pixels[..]), ScaledWrites(s.Snapshot(), x, y, EffectiveScale(scale), s.height))
  {
    var k := scale;
    if k <= 0 {
      k := 1;
    }
    DrawScaledRows(fb, x, y, s, k);
  }

  /** Colour 0 stays transparent at any scale: a framebuffer pixel outside the
      blocks of all non-zero pixels keeps its value. */
  lemma ScaledTransparent(p: seq<byte>, img: Image, x: int, y: int, scale: int, i: int)
    requires ScaledFits(img, x, y, scale) && |p| == Size && 0 <= i < Size
    requires !ScaledHit(img, x, y, scale, img.height, i)
    ensures Inside(ScaledWrites(img, x, y, scale, img.height), Size)
    ensures Apply(p, ScaledWrites(img, x, y, scale, img.height))[i] == p[i]
  {
    ScaledWritesInside(img, x, y, scale, img.height);
    ScaledWritesHit(img, x, y, scale, img.height);
    ApplyUntouched(p, ScaledWrites(img, x, y, scale, img.height), i);
  }

  /** At scale 1 the scaled blit makes exactly the stores of `DrawSprite`
      (and so does every non-positive scale, which is drawn at 1). */
  lemma {:induction false} ScaleOneRow(img: Image, x: int, y: int, fy: int, n: int)
    ensures ScaledRowWrites(img, x, y, 1, fy, n) == RowWrites(img, x, y, fy, n)
  {
    if n > 0 {
      ScaleOneRow(img, x, y, fy, n - 1);
      var px := PixelAt(img, n - 1, fy);
      assert BlockTarget(x, y, 1, n - 1, fy, 0, 0) == Target(x, y, n - 1, fy);
      assert BlockRowWrites(x, y, 1, n - 1, fy, px, 0, 1) == [Write(Target(x, y, n - 1, fy), px)];
      assert BlockWrites(x, y, 1, n - 1, fy, px, 1) == [] + BlockRowWrites(x, y, 1, n - 1, fy, px, 0, 1);
    }
  }

  lemma {:induction false} ScaleOneIsPlain(img: Image, x: int, y: int, m: int)
    ensures ScaledWrites(img, x, y, 1, m) == SpriteWrites(img, x, y, m)
  {
    if m > 0 {
      ScaleOneIsPlain(img, x, y, m - 1);
      ScaleOneRow(img, x, y, m - 1, img.width);
    }
  }

  /** Pixel (x, y) of the sprite of a glyph whose eight rows are `rows`:
      255 where bit x of row y is set, 0 elsewhere. */
  function GlyphPixel(rows: seq<byte>, x: int, y: int): byte
    requires |rows| == 8 && 0 <= x < 8 && 0 <= y < 8
  {
    if Bit(rows[y] as int, x) then 255 else 0
  }

  /** One row of `CharToSprite`: the pixels of the set bits of `row` become 255. */
  method GlyphRow(s: Sprite, rows: seq<byte>, y: int)
    requires s.Valid() && s.width == 8 && s.height == 8 && |rows| == 8 && 0 <= y < 8
    requires forall i :: 0 <= i < 64 && i / 8 >= y ==> s.pixels[i] == 0
    modifies s.pixels
    ensures forall i :: 0 <= i < 64 ==>
      s.pixels[i] == if i / 8 == y then GlyphPixel(rows, i % 8, y) else old(s.pixels[i])
  {
    var row := rows[y];
    for x := 0 to 8
      invariant forall i :: 0 <= i < 64 ==>
        s.pixels[i] == if i / 8 == y && i % 8 < x then GlyphPixel(rows, i % 8, y) else old(s.pixels[i])
    {
      AndBit(row as int, x);
      if And(row as int, Pow2(x)) != 0 {
        s.SetPixel(x, y, 255);
      }
    }
  }

  /** `CharToSprite`: the 8x8 sprite of character `ch` of a 256-glyph font
      (the CP437 table in the program), white where a glyph bit is set. */
  method CharToSprite(font: seq<seq<byte>>, ch: byte) returns (s: Sprite)
    requires |font| == 256 && forall c :: 0 <= c < 256 ==> |font[c]| == 8
    ensures fresh(s) && fresh(s.pixels) && s.Valid() && s.width == 8 && s.height == 8
    ensures forall x, y :: 0 <= x < 8 && 0 <= y < 8 ==> s.GetPixel(x, y) == GlyphPixel(font[ch as int], x, y)
  {
    var rows := font[ch as int];
    s := new Sprite.Blank(8, 8);
    for y := 0 to 8
      invariant fresh(s.pixels) && s.Valid() && s.width == 8 && s.height == 8
      invariant forall i :: 0 <= i < 64 ==> s.pixels[i] == if i / 8 < y then GlyphPixel(rows, i % 8, i / 8) else 0
    {
      GlyphRow(s, rows, y);
    }
    forall x, y | 0 <= x < 8 && 0 <= y < 8
      ensures s.GetPixel(x, y) == GlyphPixel(rows, x, y)
    {
      assert (y * 8 + x) / 8 == y && (y * 8 + x) % 8 == x;
    }
  }
}
