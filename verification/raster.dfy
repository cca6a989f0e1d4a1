/** Images as grids of RGBA pixels, and the integer-exact image operations the
    compositor uses: blank canvases, rectangle pastes (plain and through a mask),
    exact-colour recolouring (`change_color`) and `rgb_to_hex`. */
module Raster {
  import opened Outcomes

  type Channel = x: int | 0 <= x < 256

  datatype Rgb = Rgb(r: Channel, g: Channel, b: Channel)

  datatype Pixel = Pixel(r: Channel, g: Channel, b: Channel, a: Channel)

  /** An image: rows of pixels, top row first; `g[y][x]` is column `x` of row `y`. */
  type Grid = seq<seq<Pixel>>

  const White := Pixel(255, 255, 255, 255)

  function Width(g: Grid): nat {
    if |g| == 0 then 0 else |g[0]|
  }

  predicate IsRect(g: Grid) {
    forall y :: 0 <= y < |g| ==> |g[y]| == Width(g)
  }

  predicate HasSize(g: Grid, w: nat, h: nat) {
    |g| == h && forall y :: 0 <= y < h ==> |g[y]| == w
  }

  /** A `w` x `h` image filled with one pixel value (`Image.new(mode, size, color)`). */
  function Canvas(w: nat, h: nat, fill: Pixel): (c: Grid)
    ensures HasSize(c, w, h) && IsRect(c)
    ensures forall y, x :: 0 <= y < h && 0 <= x < w ==> c[y][x] == fill
  {
    seq(h, y => seq(w, x => fill))
  }

  /** Whether the rectangle of `src` placed with its top-left corner at (ox, oy) covers (x, y). */
  predicate Covers(src: Grid, ox: int, oy: int, x: int, y: int) {
    oy <= y < oy + |src| && ox <= x < ox + Width(src)
  }

  /** `dst.paste(src, (ox, oy))` without a mask: the part of `src` that falls inside
      `dst` replaces those pixels; the rest of `src` is clipped away. */
  function Paste(dst: Grid, src: Grid, ox: int, oy: int): (r: Grid)
    requires IsRect(dst) && IsRect(src)
    ensures |r| == |dst| && IsRect(r) && Width(r) == Width(dst)
    ensures forall y, x :: 0 <= y < |r| && 0 <= x < Width(r) && Covers(src, ox, oy, x, y) ==>
      r[y][x] == src[y - oy][x - ox]
    ensures forall y, x :: 0 <= y < |r| && 0 <= x < Width(r) && !Covers(src, ox, oy, x, y) ==>
      r[y][x] == dst[y][x]
  {
    seq(|dst|, y requires 0 <= y < |dst| =>
      seq(Width(dst), x requires 0 <= x < Width(dst) =>
        if Covers(src, ox, oy, x, y) then src[y - oy][x - ox] else dst[y][x]))
  }

  /** `dst.paste(src, (ox, oy), mask)`: inside the covered rectangle each pixel becomes
      `blend(dst pixel, src pixel)`. The blend is the imaging library's alpha composition,
      which is not modelled: it is a parameter. */
  function PasteMasked(dst: Grid, src: Grid, ox: int, oy: int, blend: (Pixel, Pixel) -> Pixel): (r: Grid)
    requires IsRect(dst) && IsRect(src)
    ensures |r| == |dst| && IsRect(r) && Width(r) == Width(dst)
    ensures forall y, x :: 0 <= y < |r| && 0 <= x < Width(r) && Covers(src, ox, oy, x, y) ==>
      r[y][x] == blend(dst[y][x], src[y - oy][x - ox])
    ensures forall y, x :: 0 <= y < |r| && 0 <= x < Width(r) && !Covers(src, ox, oy, x, y) ==>
      r[y][x] == dst[y][x]
  {
    seq(|dst|, y requires 0 <= y < |dst| =>
      seq(Width(dst), x requires 0 <= x < Width(dst) =>
        if Covers(src, ox, oy, x, y) then blend(dst[y][x], src[y - oy][x - ox]) else dst[y][x]))
  }

  // ---------------------------------------------------------------------------
  // change_color

  /** The default marker of `change_color`: the mid-grey of the contour template. */
  const GreyMarker := Rgb(32, 32, 32)

  /** The marker the difficulty glyph is recoloured from. */
  const WhiteMarker := Rgb(255, 255, 255)

  /** The selection test of `change_color` exactly as written: red against `r`, but
      BLUE against `g` and GREEN against `b`. */
  predicate MatchesMarker(p: Pixel, marker: Rgb) {
    p.r == marker.r && p.b == marker.g && p.g == marker.b
  }

  function Recolor(p: Pixel, target: Rgb, marker: Rgb): Pixel {
    if MatchesMarker(p, marker) then Pixel(target.r, target.g, target.b, p.a) else p
  }

  /** Every pixel selected by the marker test gets the target colour and keeps its
      alpha; every other pixel is left exactly as it was. */
  function ChangeColor(img: Grid, target: Rgb, marker: Rgb): (r: Grid)
    ensures |r| == |img|
    ensures forall y :: 0 <= y < |img| ==> |r[y]| == |img[y]|
    ensures forall y, x :: 0 <= y < |img| && 0 <= x < |img[y]| ==> r[y][x].a == img[y][x].a
    ensures forall y, x :: 0 <= y < |img| && 0 <= x < |img[y]| && MatchesMarker(img[y][x], marker) ==>
      r[y][x].r == target.r && r[y][x].g == target.g && r[y][x].b == target.b
    ensures forall y, x :: 0 <= y < |img| && 0 <= x < |img[y]| && !MatchesMarker(img[y][x], marker) ==>
      r[y][x] == img[y][x]
  {
    seq(|img|, y requires 0 <= y < |img| =>
      seq(|img[y]|, x requires 0 <= x < |img[y]| => Recolor(img[y][x], target, marker)))
  }

  /** For the markers the service passes (all three channels equal) the swapped
      comparison is harmless: a pixel is selected iff its colour is the marker. */
  lemma GreyMarkersMatchExactly(p: Pixel, marker: Rgb)
    requires marker.r == marker.g == marker.b
    ensures MatchesMarker(p, marker) <==> (p.r == marker.r && p.g == marker.g && p.b == marker.b)
  {
  }

  /** For a marker whose channels differ, the test selects a pixel of another colour. */
  lemma SwappedChannelsSelectAnotherColour()
    ensures MatchesMarker(Pixel(1, 3, 2, 255), Rgb(1, 2, 3))
    ensures !MatchesMarker(Pixel(1, 2, 3, 255), Rgb(1, 2, 3))
  {
  }

  /** Recolouring again with the same marker and target changes nothing more. */
  lemma ChangeColorIdempotent(img: Grid, target: Rgb, marker: Rgb)
    ensures ChangeColor(ChangeColor(img, target, marker), target, marker) == ChangeColor(img, target, marker)
  {
    var once := ChangeColor(img, target, marker);
    var twice := ChangeColor(once, target, marker);
    forall y | 0 <= y < |img|
      ensures twice[y] == once[y]
    {
      forall x | 0 <= x < |img[y]|
        ensures twice[y][x] == once[y][x]
      {
        if MatchesMarker(img[y][x], marker) {
          assert once[y][x] == Pixel(target.r, target.g, target.b, img[y][x].a);
        }
      }
    }
  }

  // ---------------------------------------------------------------------------
  // rgb_to_hex: "#%02x%02x%02x"

  predicate IsLowerHex(c: char) {
    ('0' <= c <= '9') || ('a' <= c <= 'f')
  }

  function HexDigit(n: nat): (c: char)
    requires n < 16
    ensures IsLowerHex(c)
  {
    if n < 10 then ('0' as int + n) as char else ('a' as int + n - 10) as char
  }

  function HexValue(c: char): (n: nat)
    requires IsLowerHex(c)
    ensures n < 16
  {
    if c <= '9' then c as int - '0' as int else c as int - 'a' as int + 10
  }

  /** One channel as two zero-padded lower-case hex digits (`%02x`). */
  function HexPair(v: Channel): string {
    [HexDigit(v / 16), HexDigit(v % 16)]
  }

  function RgbToHex(c: Rgb): (s: string)
    ensures |s| == 7 && s[0] == '#'
    ensures forall i :: 1 <= i < 7 ==> IsLowerHex(s[i])
  {
    "#" + HexPair(c.r) + HexPair(c.g) + HexPair(c.b)
  }

  function PairValue(hi: char, lo: char): Channel
    requires IsLowerHex(hi) && IsLowerHex(lo)
  {
    16 * HexValue(hi) + HexValue(lo)
  }

  /** Reads a `#rrggbb` string in the exact form `RgbToHex` writes. */
  function HexToRgb(s: string): Option<Rgb> {
    if |s| == 7 && s[0] == '#' && forall i :: 1 <= i < 7 ==> IsLowerHex(s[i]) then
      Some(Rgb(PairValue(s[1], s[2]), PairValue(s[3], s[4]), PairValue(s[5], s[6])))
    else None
  }

  lemma HexPairRoundTrip(v: Channel)
    ensures PairValue(HexPair(v)[0], HexPair(v)[1]) == v
  {
  }

  /** Decoding a serialised colour recovers the three channels. */
  lemma HexRoundTrip(c: Rgb)
    ensures HexToRgb(RgbToHex(c)) == Some(c)
  {
    var s := RgbToHex(c);
    HexPairRoundTrip(c.r);
    HexPairRoundTrip(c.g);
    HexPairRoundTrip(c.b);
    assert s[1..3] == HexPair(c.r) && s[3..5] == HexPair(c.g) && s[5..7] == HexPair(c.b);
  }

  lemma HexDigitOfValue(c: char)
    requires IsLowerHex(c)
    ensures HexDigit(HexValue(c)) == c
  {
  }

  lemma PairValueDigits(hi: char, lo: char)
    requires IsLowerHex(hi) && IsLowerHex(lo)
    ensures HexPair(PairValue(hi, lo)) == [hi, lo]
  {
    var v := PairValue(hi, lo);
    assert v / 16 == HexValue(hi) && v % 16 == HexValue(lo);
    HexDigitOfValue(hi);
    HexDigitOfValue(lo);
  }

  /** Every string the decoder accepts is exactly the serialisation of what it decodes to. */
  lemma HexDecodeThenEncode(s: string)
    requires HexToRgb(s).Some?
    ensures RgbToHex(HexToRgb(s).value) == s
  {
    PairValueDigits(s[1], s[2]);
    PairValueDigits(s[3], s[4]);
    PairValueDigits(s[5], s[6]);
    assert s == [s[0]] + [s[1], s[2]] + [s[3], s[4]] + [s[5], s[6]];
  }
}
