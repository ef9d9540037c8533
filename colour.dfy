// Colour conversions of the komorebi theme crate: a colour is either an RGB
// triple of 32-bit components or a hex colour of three bytes, and it travels to
// the Windows API packed into one u32 as 0x00BBGGRR.

module Colours {

  type U32 = bv32
  type U8 = bv8

  /** RGB colour; the components are u32 in the source, so they may exceed 255. */
  datatype Rgb = Rgb(r: U32, g: U32, b: U32)

  /** A parsed hex colour string (`#rrggbb`); only the three bytes matter here. */
  datatype HexColor = HexColor(r: U8, g: U8, b: U8)

  /** The untagged `Colour` enum. */
  datatype Colour = RgbColour(rgb: Rgb) | HexColour(hex: HexColor)

  /** The egui colour type, with its alpha channel. */
  datatype Color32 = Color32(r: U8, g: U8, b: U8, a: U8)

  predicate IsByte(x: U32) { x <= 0xFF }

  predicate IsByteRgb(c: Rgb) { IsByte(c.r) && IsByte(c.g) && IsByte(c.b) }

  /** Low byte of a u32, as Rust's `x as u8`. */
  function Truncate(x: U32): (r: U8)
    ensures r as U32 == x & 0xFF
  {
    (x & 0xFF) as U8
  }

  /** `Color32::from_rgb`: an opaque colour. */
  function FromRgb(r: U8, g: U8, b: U8): (c: Color32)
    ensures c.a == 0xFF && c.r == r && c.g == g && c.b == b
  {
    Color32(r, g, b, 0xFF)
  }

  /** `From<HexColor> for Rgb`: widening of each byte. */
  function RgbFromHex(h: HexColor): (c: Rgb)
    ensures IsByteRgb(c)
    ensures Truncate(c.r) == h.r && Truncate(c.g) == h.g && Truncate(c.b) == h.b
  {
    Rgb(h.r as U32, h.g as U32, h.b as U32)
  }

  /** `From<Rgb> for u32`: `r | g << 8 | b << 16`, shifts wrapping at 32 bits. */
  function Pack(c: Rgb): (v: U32)
    ensures IsByteRgb(c) ==> v <= 0xFF_FFFF
    ensures v & 0xFF == c.r & 0xFF
  {
    c.r | (c.g << 8) | (c.b << 16)
  }

  /** `From<u32> for Rgb`: the three low bytes of the value. */
  function Unpack(v: U32): (c: Rgb)
    ensures IsByteRgb(c)
  {
    Rgb(v & 0xFF, (v >> 8) & 0xFF, (v >> 16) & 0xFF)
  }

  /** `From<u32> for Colour`. */
  function ColourFromU32(v: U32): (c: Colour)
    ensures c.RgbColour? && IsByteRgb(c.rgb)
  {
    RgbColour(Unpack(v))
  }

  /** `From<Colour> for u32`: a hex colour goes through its RGB form. */
  function ColourToU32(c: Colour): (v: U32)
    ensures c.HexColour? ==> v <= 0xFF_FFFF
  {
    match c
    case RgbColour(rgb) => Pack(rgb)
    case HexColour(h) => Pack(RgbFromHex(h))
  }

  /** `From<Colour> for Color32`: each component truncated to its low byte. */
  function ToColor32(c: Colour): (k: Color32)
    ensures k.a == 0xFF
    ensures c.HexColour? ==> k.r == c.hex.r && k.g == c.hex.g && k.b == c.hex.b
  {
    match c
    case RgbColour(rgb) => FromRgb(Truncate(rgb.r), Truncate(rgb.g), Truncate(rgb.b))
    case HexColour(h) =>
      var rgb := RgbFromHex(h);
      FromRgb(Truncate(rgb.r), Truncate(rgb.g), Truncate(rgb.b))
  }

  /** `From<Color32> for Colour`: the alpha channel is dropped. */
  function FromColor32(k: Color32): (c: Colour)
    ensures c.RgbColour? && IsByteRgb(c.rgb)
  {
    RgbColour(Rgb(k.r as U32, k.g as U32, k.b as U32))
  }

  /** Packing after unpacking keeps exactly the 24 colour bits of the value. */
  lemma PackUnpack(v: U32)
    ensures Pack(Unpack(v)) == v & 0xFF_FFFF
  {
  }

  /** Unpacking after packing is the identity on byte-valued components. */
  lemma UnpackPack(c: Rgb)
    requires IsByteRgb(c)
    ensures Unpack(Pack(c)) == c
  {
  }

  /** A u32 survives the trip through `Colour` when its top byte is zero. */
  lemma ColourU32RoundTrip(v: U32)
    ensures ColourToU32(ColourFromU32(v)) == v & 0xFF_FFFF
    ensures v <= 0xFF_FFFF ==> ColourToU32(ColourFromU32(v)) == v
  {
    PackUnpack(v);
  }

  /** A hex colour packs to the same value as the RGB colour it converts to. */
  lemma HexPacksAsRgb(h: HexColor)
    ensures ColourFromU32(ColourToU32(HexColour(h))) == RgbColour(RgbFromHex(h))
  {
    UnpackPack(RgbFromHex(h));
  }

  /** An opaque egui colour survives the trip through `Colour`. */
  lemma Color32RoundTrip(k: Color32)
    ensures ToColor32(FromColor32(k)) == k <==> k.a == 0xFF
  {
  }

  /** A byte-valued colour survives the trip through egui's colour type. */
  lemma ColourColor32RoundTrip(c: Colour)
    requires c.RgbColour? ==> IsByteRgb(c.rgb)
    ensures c.RgbColour? ==> FromColor32(ToColor32(c)) == c
    ensures c.HexColour? ==> FromColor32(ToColor32(c)) == RgbColour(RgbFromHex(c.hex))
  {
  }
}
