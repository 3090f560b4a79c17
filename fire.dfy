/** The fire effect of internal/effects/fire.go: a heat field the size of the
    screen, seeded with random heat along the bottom two rows and propagated
    upward by averaging with decay, shown through the fire palette.

    The random numbers are a parameter: `Draw` receives the values its
    `rand.Intn(base + 1)` calls return, in call order. */
module Fires {
  import opened GoNum
  import opened Music
  import opened Sync
  import opened Palettes
  import opened Framebuffers

  /** The intensity `Update` sets for a frame: 1 without a tempo; with one, 2 on
      the first tick of a row (1 otherwise) plus the loudest channel / 255. */
  function Intensity(info: FrameInfo): real
    requires info.numChannels <= MaxChannels
  {
    if info.bpm > 0 then
      (if info.speed > 0 && info.frame == 0 then 2.0 else 1.0)
      + PeakOf(info.channelVol, info.numChannels) as real / 255.0
    else 1.0
  }

  /** The hottest seed `Draw` may place: `int(200 * intensity)`, capped at 255. */
  function BaseHeat(intensity: real): int
  {
    Min(Trunc(200.0 * intensity), 255)
  }

  /** Every heat value is one the fire palette can show. */
  predicate HeatOk(h: seq<int>)
  {
    forall i :: 0 <= i < |h| ==> 0 <= h[i] <= 255
  }

  /** The heat after seeding: draws 2x and 2x+1 go to column x of the bottom row
      and of the row above it. */
  function Seeded(h: seq<int>, draws: seq<int>): (s: seq<int>)
    requires |h| == Size && |draws| == 2 * Width
    ensures |s| == Size
  {
    seq(Size, i requires 0 <= i < Size =>
      if Row(i) == Height - 1 then draws[2 * Col(i)]
      else if Row(i) == Height - 2 then draws[2 * Col(i) + 1]
      else h[i])
  }

  /** The new heat of cell (x, y): the average of the three cells below it
      (neighbour columns clamped to the screen) and the one two rows below,
      less 2, never below 0. */
  function Cool(s: seq<int>, y: int, x: int): int
    requires |s| == Size && 0 <= y < Height - 2 && 0 <= x < Width
  {
    var left := Max(x - 1, 0);
    var right := Min(x + 1, Width - 1);
    var sum := s[(y + 1) * Width + left] + s[(y + 1) * Width + x] + s[(y + 1) * Width + right] + s[(y + 2) * Width + x];
    Max(Quot(sum, 4) - 2, 0)
  }

  /** One frame of the fire: seed, then give every row above the seeded two its
      cooled value. Rows are processed top-down, so each row is computed from
      the rows below it as they were before this frame. */
  function Burn(h: seq<int>, draws: seq<int>): (r: seq<int>)
    requires |h| == Size && |draws| == 2 * Width
    ensures |r| == Size
  {
    var s := Seeded(h, draws);
    seq(Size, i requires 0 <= i < Size =>
      if Row(i) >= Height - 2 then s[i] else Cool(s, Row(i), Col(i)))
  }

  /** The intensity is at least 1; exactly 1 without a tempo; at least 2 on the first tick of a row. */
  lemma IntensityBounds(info: FrameInfo)
    requires info.numChannels <= MaxChannels
    ensures Intensity(info) >= 1.0
    ensures info.bpm <= 0 ==> Intensity(info) == 1.0
    ensures info.bpm > 0 && info.speed > 0 && info.frame == 0 ==> Intensity(info) >= 2.0
  {
    var p := PeakOf(info.channelVol, info.numChannels);
    assert p as real / 255.0 >= 0.0;
  }

  /** With intensity at least 1 the seeds may reach 200; from 1.28 on, the cap of 255. */
  lemma BaseHeatRange(intensity: real)
    requires intensity >= 1.0
    ensures 200 <= BaseHeat(intensity) <= 255
    ensures intensity >= 1.28 ==> BaseHeat(intensity) == 255
  {
  }

  /** On the first tick of a row the seeds may reach full heat. */
  lemma BeatBurnsHottest(info: FrameInfo)
    requires info.numChannels <= MaxChannels
    requires info.bpm > 0 && info.speed > 0 && info.frame == 0
    ensures BaseHeat(Intensity(info)) == 255
  {
    IntensityBounds(info);
    BaseHeatRange(Intensity(info));
  }

  /** A cooled cell is never hotter than its hottest source cell less 2, nor below 0. */
  lemma CoolBounds(s: seq<int>, y: int, x: int, m: int)
    requires |s| == Size && 0 <= y < Height - 2 && 0 <= x < Width
    requires forall i :: 0 <= i < Size ==> 0 <= s[i] <= m
    ensures 0 <= Cool(s, y, x) <= Max(m - 2, 0)
  {
    var left := Max(x - 1, 0);
    var right := Min(x + 1, Width - 1);
    var a, b, c, d := (y + 1) * Width + left, (y + 1) * Width + x, (y + 1) * Width + right, (y + 2) * Width + x;
    assert 0 <= a < Size && 0 <= b < Size && 0 <= c < Size && 0 <= d < Size;
    var sum := s[a] + s[b] + s[c] + s[d];
    assert 0 <= sum <= 4 * m;
    assert Quot(sum, 4) <= m;
  }

  /** Seeds in [0, 255] keep every heat value in [0, 255]. */
  lemma BurnKeepsRange(h: seq<int>, draws: seq<int>)
    requires |h| == Size && |draws| == 2 * Width
    requires HeatOk(h) && forall k :: 0 <= k < |draws| ==> 0 <= draws[k] <= 255
    ensures HeatOk(Burn(h, draws))
  {
    var s := Seeded(h, draws);
    forall i | 0 <= i < Size
      ensures 0 <= s[i] <= 255
    {
      assert 0 <= Col(i) < Width;
    }
    forall i | 0 <= i < Size && Row(i) < Height - 2
      ensures 0 <= Cool(s, Row(i), Col(i)) <= 255
    {
      CoolBounds(s, Row(i), Col(i), 255);
    }
  }

  /** Without fuel the fire dies down: with all seeds 0, the hottest cell loses
      at least 2 per frame (or reaches 0), and the seeded rows go cold. */
  lemma NoFuelCools(h: seq<int>, draws: seq<int>, m: int)
    requires |h| == Size && |draws| == 2 * Width
    requires m >= 0 && forall i :: 0 <= i < Size ==> 0 <= h[i] <= m
    requires forall k :: 0 <= k < |draws| ==> draws[k] == 0
    ensures forall i :: 0 <= i < Size ==> 0 <= Burn(h, draws)[i] <= Max(m - 2, 0)
    ensures forall i :: 0 <= i < Size && Row(i) >= Height - 2 ==> Burn(h, draws)[i] == 0
  {
    var s := Seeded(h, draws);
    forall i | 0 <= i < Size
      ensures 0 <= s[i] <= m
      ensures Row(i) >= Height - 2 ==> s[i] == 0
    {
      assert 0 <= Col(i) < Width;
    }
    forall i | 0 <= i < Size && Row(i) < Height - 2
      ensures 0 <= Cool(s, Row(i), Col(i)) <= Max(m - 2, 0)
    {
      CoolBounds(s, Row(i), Col(i), m);
    }
  }

  /** A cooled cell reads only rows below it. */
  lemma CoolFromBelow(h: seq<int>, s: seq<int>, y: int, x: int)
    requires |h| == Size && |s| == Size && 0 <= y < Height - 2 && 0 <= x < Width
    requires forall i :: 0 <= i < Size && Row(i) > y ==> h[i] == s[i]
    ensures Cool(h, y, x) == Cool(s, y, x)
  {
    var left := Max(x - 1, 0);
    var right := Min(x + 1, Width - 1);
    Coords(left, y + 1);
    Coords(x, y + 1);
    Coords(right, y + 1);
    Coords(x, y + 2);
  }

  /** Where rows y, y + 1 and y + 2 start. */
  lemma RowStarts(y: int)
    requires 0 <= y < Height - 2
    ensures 0 <= y * Width <= (Height - 3) * Width
    ensures (y + 1) * Width == y * Width + Width && (y + 2) * Width == y * Width + 2 * Width
  {
  }

  /** Inside the cap, `byte(min(v, 255))` shows the heat value itself. */
  lemma ShownAsIs(v: int)
    requires 0 <= v <= 255
    ensures ByteOf(Min(v, 255)) as int == v
  {
  }

  class Fire {
    const heat: array<int>
    var intensity: real

    predicate Valid()
      reads this, heat
    {
      heat.Length == Size && intensity >= 1.0 && HeatOk(heat[..])
    }

    /** `NewFire`: intensity 1 and a cold field. */
    constructor ()
      ensures Valid() && fresh(heat) && intensity == 1.0
      ensures forall i :: 0 <= i < Size ==> heat[i] == 0
    {
      heat := new int[Size](_ => 0);
      intensity := 1.0;
    }

    /** `Init`: installs the fire palette and clears the heat. */
    method Init(fb: Framebuffer)
      requires Valid()
      modifies heat, fb`palette
      ensures Valid()
      ensures forall k :: 0 <= k < 256 ==> fb.palette[k] == FireEntry(k)
      ensures forall i :: 0 <= i < Size ==> heat[i] == 0
    {
      var pal := FirePalette();
      fb.SetPalette(pal);
      for i := 0 to Size
        invariant fb.palette == pal
        invariant forall j :: 0 <= j < i ==> heat[j] == 0
      {
        heat[i] := 0;
      }
      assert forall j :: 0 <= j < Size ==> heat[..][j] == 0;
    }

    /** `Update`: sets the intensity from the frame's tempo, tick and channel volumes. */
    method Update(dt: real, info: FrameInfo)
      requires Valid() && info.numChannels <= MaxChannels
      modifies this`intensity
      ensures Valid() && intensity == Intensity(info)
    {
      intensity := 1.0;
      if info.bpm > 0 {
        if info.speed > 0 && info.frame == 0 {
          intensity := 2.0;
        }
        var loudest := MaxChannelVolume(info);
        intensity := intensity + loudest;
      }
      IntensityBounds(info);
    }

    /** `Draw`: one frame of the fire into `fb`. `draws` are the random
        numbers, each at most the base heat of the current intensity. */
    method Draw(fb: Framebuffer, draws: seq<int>)
      requires Valid() && fb.Valid()
      requires |draws| == 2 * Width
      requires forall k :: 0 <= k < |draws| ==> 0 <= draws[k] <= BaseHeat(intensity)
      modifies heat, fb.pixels
      ensures Valid() && heat[..] == Burn(old(heat[..]), draws)
      ensures forall i :: 0 <= i < Size ==> fb.pixels[i] as int == heat[i]
    {
      ghost var h := heat[..];
      Seed(draws);
      ghost var s := heat[..];
      assert s == Seeded(h, draws);
      for y := 0 to Height - 2
        invariant forall i :: 0 <= i < Size ==>
          heat[i] == if Row(i) < y then Cool(s, Row(i), Col(i)) else s[i]
      {
        CoolRow(y, s);
      }
      assert heat[..] == Burn(h, draws);
      BurnKeepsRange(h, draws);
      Show(fb);
      forall i | 0 <= i < Size
        ensures fb.pixels[i] as int == heat[i]
      {
        ShownAsIs(heat[i]);
      }
    }

    /** Lines 51-56 of `Draw`: column x of the bottom row gets draw 2x, the row above draw 2x+1. */
    method Seed(draws: seq<int>)
      requires heat.Length == Size && |draws| == 2 * Width
      modifies heat
      ensures heat[..] == Seeded(old(heat[..]), draws)
    {
      ghost var h := heat[..];
      for x := 0 to Width
        invariant forall i :: 0 <= i < Size ==>
          heat[i] == if Row(i) >= Height - 2 && Col(i) < x then Seeded(h, draws)[i] else h[i]
      {
        Coords(x, Height - 1);
        Coords(x, Height - 2);
        heat[(Height - 1) * Width + x] := draws[2 * x];
        heat[(Height - 2) * Width + x] := draws[2 * x + 1];
      }
      forall i | 0 <= i < Size
        ensures heat[i] == Seeded(h, draws)[i]
      {
        assert Col(i) < Width;
      }
    }

    /** Lines 59-82 of `Draw` for row y: every cell of the row gets its cooled
        value, read from the rows below, which are still those of `s`. */
    method CoolRow(y: int, ghost s: seq<int>)
      requires heat.Length == Size && |s| == Size && 0 <= y < Height - 2
      requires forall i :: 0 <= i < Size && Row(i) > y ==> heat[i] == s[i]
      modifies heat
      ensures forall i :: 0 <= i < Size ==> heat[i] == if Row(i) == y then Cool(s, y, Col(i)) else old(heat[i])
    {
      for x := 0 to Width
        invariant forall i :: 0 <= i < Size ==>
          heat[i] == if Row(i) == y && Col(i) < x then Cool(s, y, Col(i)) else old(heat[i])
      {
        CoolCell(y, x, s);
        Coords(x, y);
      }
    }

    /** Lines 61-80 of `Draw`: cell (x, y) gets its cooled value. */
    method CoolCell(y: int, x: int, ghost s: seq<int>)
      requires heat.Length == Size && |s| == Size && 0 <= y < Height - 2 && 0 <= x < Width
      requires forall i :: 0 <= i < Size && Row(i) > y ==> heat[i] == s[i]
      modifies heat
      ensures heat[y * Width + x] == Cool(s, y, x)
      ensures forall i :: 0 <= i < Size && i != y * Width + x ==> heat[i] == old(heat[i])
    {
      var left := x - 1;
      if left < 0 {
        left := 0;
      }
      var right := x + 1;
      if right >= Width {
        right := Width - 1;
      }
      RowStarts(y);
      var sum := heat[(y + 1) * Width + left] + heat[(y + 1) * Width + x] + heat[(y + 1) * Width + right]
        + heat[(y + 2) * Width + x];
      var avg := Quot(sum, 4);
      var decay := avg - 2;
      if decay < 0 {
        decay := 0;
      }
      assert decay == Cool(heat[..], y, x);
      CoolFromBelow(heat[..], s, y, x);
      heat[y * Width + x] := decay;
    }

    /** Lines 85-91 of `Draw`: each pixel is its heat, capped at 255. */
    method Show(fb: Framebuffer)
      requires heat.Length == Size && fb.Valid()
      modifies fb.pixels
      ensures forall i :: 0 <= i < Size ==> fb.pixels[i] == ByteOf(Min(heat[i], 255))
    {
      for i := 0 to Size
        invariant forall j :: 0 <= j < i ==> fb.pixels[j] == ByteOf(Min(heat[j], 255))
      {
        var v := heat[i];
        if v > 255 {
          v := 255;
        }
        fb.pixels[i] := ByteOf(v);
      }
    }
  }
}
