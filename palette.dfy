/** The 256-entry colour tables of internal/vga/palette.go: the Mode 13h
    default palette and the fire gradient. */
module Palettes {
  import opened GoNum

  /** `color.RGBA`: four 8-bit channels. */
  datatype Color = Color(r: byte, g: byte, b: byte, a: byte)

  /** A palette is a value of exactly 256 colours (Go's `[256]color.RGBA`). */
  type Palette = p: seq<Color> | |p| == 256 witness seq(256, _ => Color(0, 0, 0, 0))

  /** The sixteen CGA colours, in order. */
  const Cga: seq<Color> := [
    Color(0, 0, 0, 255), Color(0, 0, 170, 255), Color(0, 170, 0, 255), Color(0, 170, 170, 255),
    Color(170, 0, 0, 255), Color(170, 0, 170, 255), Color(170, 85, 0, 255), Color(170, 170, 170, 255),
    Color(85, 85, 85, 255), Color(85, 85, 255, 255), Color(85, 255, 85, 255), Color(85, 255, 255, 255),
    Color(255, 85, 85, 255), Color(255, 85, 255, 255), Color(255, 255, 85, 255), Color(255, 255, 255, 255)
  ]

  /** Colour (r, g, b) of the 6x6x6 cube: each level is a step of 51. */
  function CubeColor(r: int, g: int, b: int): (c: Color)
    requires 0 <= r < 6 && 0 <= g < 6 && 0 <= b < 6
    ensures c.r as int == 51 * r && c.g as int == 51 * g && c.b as int == 51 * b && c.a == 255
  {
    Color((51 * r) as byte, (51 * g) as byte, (51 * b) as byte, 255)
  }

  /** An opaque grey of level `v`. */
  function Grey(v: int): (c: Color)
    requires 0 <= v < 256
    ensures c.r as int == v && c.g == c.r && c.b == c.r && c.a == 255
  {
    Color(v as byte, v as byte, v as byte, 255)
  }

  /** Entry `i` of the default palette, in closed form: CGA colours, then the
      colour cube indexed in base 6, then a grey ramp in steps of 10 from 8. */
  function DefaultEntry(i: int): (c: Color)
    requires 0 <= i < 256
    ensures c.a == 255
  {
    if i < 16 then Cga[i]
    else if i < 232 then CubeColor((i - 16) / 36, (i - 16) / 6 % 6, (i - 16) % 6)
    else Grey(8 + 10 * (i - 232))
  }

  /** The base-6 digits of a cube offset. */
  lemma CubeDigits(r: int, g: int, b: int)
    requires 0 <= r < 6 && 0 <= g < 6 && 0 <= b < 6
    ensures (36 * r + 6 * g + b) / 36 == r
    ensures (36 * r + 6 * g + b) / 6 % 6 == g
    ensures (36 * r + 6 * g + b) % 6 == b
  {
    var k := 36 * r + 6 * g + b;
    assert k == 6 * (6 * r + g) + b;
    assert k / 6 == 6 * r + g;
    assert k == 36 * r + (6 * g + b) && 0 <= 6 * g + b < 36;
  }

  /** Entry 16 + 36r + 6g + b is the cube colour (51r, 51g, 51b). */
  lemma CubeEntry(r: int, g: int, b: int)
    requires 0 <= r < 6 && 0 <= g < 6 && 0 <= b < 6
    ensures 16 <= 16 + 36 * r + 6 * g + b < 232
    ensures DefaultEntry(16 + 36 * r + 6 * g + b) == CubeColor(r, g, b)
  {
    CubeDigits(r, g, b);
  }

  /** Every entry from 16 to 231 is a cube entry: the cube fills that range exactly. */
  lemma CubeCoversRange(i: int)
    requires 16 <= i < 232
    ensures var k := i - 16;
      && 0 <= k / 36 < 6 && 0 <= k / 6 % 6 < 6 && 0 <= k % 6 < 6
      && i == 16 + 36 * (k / 36) + 6 * (k / 6 % 6) + k % 6
  {
    var k := i - 16;
    assert k == 6 * (k / 6) + k % 6;
    assert k / 6 == 6 * (k / 6 / 6) + k / 6 % 6;
    assert k / 6 / 6 == k / 36;
  }

  /** `DefaultPalette`: copies the CGA colours, fills the cube with a running
      index over three nested loops, then the grey ramp. */
  method DefaultPalette() returns (p: Palette)
    ensures forall i :: 0 <= i < 256 ==> p[i] == DefaultEntry(i)
  {
    var a := new Color[256](_ => Color(0, 0, 0, 0));
    for k := 0 to 16
      invariant forall j :: 0 <= j < k ==> a[j] == DefaultEntry(j)
    {
      a[k] := Cga[k];
    }
    var i := 16;
    for r := 0 to 6
      invariant i == 16 + 36 * r
      invariant forall j :: 0 <= j < i ==> a[j] == DefaultEntry(j)
    {
      for g := 0 to 6
        invariant i == 16 + 36 * r + 6 * g
        invariant forall j :: 0 <= j < i ==> a[j] == DefaultEntry(j)
      {
        for b := 0 to 6
          invariant i == 16 + 36 * r + 6 * g + b
          invariant forall j :: 0 <= j < i ==> a[j] == DefaultEntry(j)
        {
          CubeEntry(r, g, b);
          a[i] := Color(ByteOf(r * 51), ByteOf(g * 51), ByteOf(b * 51), 255);
          i := i + 1;
        }
      }
    }
    for j := 0 to 24
      invariant forall k :: 0 <= k < 232 + j ==> a[k] == DefaultEntry(k)
    {
      var v := ByteOf(8 + j * 10);
      a[232 + j] := Color(v, v, v, 255);
    }
    p := a[..];
  }

  /** Entry `i` of the fire gradient: black to red, red to yellow, yellow to white, white. */
  function FireEntry(i: int): (c: Color)
    requires 0 <= i < 256
    ensures c.a == 255
  {
    if i < 64 then Color((4 * i) as byte, 0, 0, 255)
    else if i < 128 then Color(255, (4 * (i - 64)) as byte, 0, 255)
    else if i < 192 then Color(255, 255, (4 * (i - 128)) as byte, 255)
    else Color(255, 255, 255, 255)
  }

  /** `FirePalette`: one pass over the 256 entries choosing the band of each. */
  method FirePalette() returns (p: Palette)
    ensures forall i :: 0 <= i < 256 ==> p[i] == FireEntry(i)
  {
    var a := new Color[256](_ => Color(0, 0, 0, 0));
    for i := 0 to 256
      invariant forall j :: 0 <= j < i ==> a[j] == FireEntry(j)
    {
      var r, g, b := 0 as byte, 0 as byte, 0 as byte;
      if i < 64 {
        r := ByteOf(i * 4);
      } else if i < 128 {
        r := 255;
        g := ByteOf((i - 64) * 4);
      } else if i < 192 {
        r := 255;
        g := 255;
        b := ByteOf((i - 128) * 4);
      } else {
        r, g, b := 255, 255, 255;
      }
      a[i] := Color(r, g, b, 255);
    }
    p := a[..];
  }

  /** The gradient only brightens: each channel is non-decreasing in the index. */
  lemma FireBrightens(i: int, j: int)
    requires 0 <= i <= j < 256
    ensures FireEntry(i).r <= FireEntry(j).r
    ensures FireEntry(i).g <= FireEntry(j).g
    ensures FireEntry(i).b <= FireEntry(j).b
  {
  }

  /** The band boundaries: black at 0, pure red at 64, yellow at 128, white from 192. */
  lemma FireBands()
    ensures FireEntry(0) == Color(0, 0, 0, 255)
    ensures FireEntry(63) == Color(252, 0, 0, 255)
    ensures FireEntry(64) == Color(255, 0, 0, 255)
    ensures FireEntry(128) == Color(255, 255, 0, 255)
    ensures forall i :: 192 <= i < 256 ==> FireEntry(i) == Color(255, 255, 255, 255)
  {
  }
}
