/**
 * GX2 texture descriptors: the encoder that fills the register words of a texture object, the binding
 * that sends them to a texture unit, and the decoder that undoes the encoder. Register words are
 * 32-bit vectors.
 */
module TextureResource {
  import opened RegisterState

  const DEPTH_BUFFER_USE: bv32 := 4

  /** The fields of a GX2Texture that the encoder reads. */
  datatype Texture = Texture(
    dimension: bv32, width: bv32, height: bv32, depth: bv32, levels: bv32, format: bv32, aaMode: bv32, use: bv32,
    tileMode: bv32, pitch: bv32, firstMip: bv32, numMips: bv32, firstSlice: bv32, numSlices: bv32,
    componentMap: bv32)

  datatype Descriptor = Descriptor(
    dimension: bv32, tileMode: bv32, depthTile: bool, pitchPixels: bv32, width: bv32, height: bv32,
    depthOrLayers: bv32, format: bv32, imageAddress: bv32, mipmapAddress: bv32, numericFormat: bv32,
    endianSwap: bv32, forceDegamma: bool, selectors: seq<bv32>, baseLevel: bv32, lastLevel: bv32,
    baseArray: bv32, lastArray: bv32)

  function AtLeastOne(v: bv32): bv32 { if v == 0 then 1 else v }

  function BaseFormat(format: bv32): bv32 { format & 0x3F }

  predicate Compressed(format: bv32) { 0x31 <= BaseFormat(format) <= 0x35 }

  /** `gx2_surface_format_bits`, zero for an unsupported format. */
  function FormatBits(format: bv32): bv32 {
    var b := BaseFormat(format);
    if b == 0x01 || b == 0x02 then 8
    else if b == 0x05 || b == 0x06 || b == 0x07 || b == 0x08 || b == 0x0A || b == 0x0B || b == 0x0C then 16
    else if b == 0x0D || b == 0x0E || b == 0x0F || b == 0x10 || b == 0x11 || b == 0x16 || b == 0x19 || b == 0x1A ||
            b == 0x1B then 32
    else if b == 0x1D || b == 0x1E || b == 0x1F || b == 0x20 then 64
    else if b == 0x22 || b == 0x23 then 128
    else 0
  }

  /** `gx2_texture_endian_swap`. */
  function EndianSwap(format: bv32): Option<bv32> {
    var b := BaseFormat(format);
    if b == 0x01 || b == 0x02 || b == 0x0D || b == 0x0E || b == 0x1D || b == 0x1E || b == 0x22 || b == 0x23 ||
       0x31 <= b <= 0x35 then Some(0)
    else if b == 0x05 || b == 0x06 || b == 0x07 || b == 0x08 || b == 0x0A || b == 0x0B || b == 0x0C then Some(1)
    else if b == 0x0F || b == 0x10 || b == 0x11 || b == 0x16 || b == 0x19 || b == 0x1A || b == 0x1B then Some(2)
    else if b == 0x1F || b == 0x20 then Some(3)
    else None
  }

  /** The two format tables agree: an encodable format has a layout or is compressed. */
  lemma EndianKnown(format: bv32)
    ensures EndianSwap(format).Some? <==> (FormatBits(format) != 0 || Compressed(format))
    ensures EndianSwap(format).Some? ==> EndianSwap(format).value <= 3 && BaseFormat(format) != 0
  {
  }

  /** One, two or four components of 32 bits each. */
  predicate WordComponents(format: bv32) {
    var b := BaseFormat(format);
    b == 0x0D || b == 0x0E || b == 0x1D || b == 0x1E || b == 0x22 || b == 0x23
  }

  /**
   * The endian code by element: 0 for bytes, words and compressed blocks, which are not swapped, 1 for elements
   * of 16 bits, 2 for those packed into 32 bits and 3 for those packed into 64.
   */
  lemma EndianByElement(format: bv32)
    requires FormatBits(format) != 0 || Compressed(format)
    ensures EndianSwap(format) == Some(
              if Compressed(format) || WordComponents(format) || FormatBits(format) == 8 then 0
              else if FormatBits(format) == 16 then 1
              else if FormatBits(format) == 32 then 2
              else 3)
    ensures !Compressed(format) && !WordComponents(format) ==> FormatBits(format) <= 64
  {
  }

  function SelectorX(map_: bv32): bv32 { (map_ >> 24) & 7 }
  function SelectorY(map_: bv32): bv32 { (map_ >> 16) & 7 }
  function SelectorZ(map_: bv32): bv32 { (map_ >> 8) & 7 }
  function SelectorW(map_: bv32): bv32 { map_ & 7 }

  // The checks of the encoder

  predicate DimensionsFit(t: Texture) {
    t.dimension <= 7 && t.width <= 0x2000 && AtLeastOne(t.height) <= 0x2000 && AtLeastOne(t.depth) <= 0x2000
  }

  predicate MipsFit(t: Texture) {
    t.aaMode <= 3 && AtLeastOne(t.levels) <= 16 && t.firstMip <= 15 && AtLeastOne(t.numMips) <= 16 &&
    t.firstMip + AtLeastOne(t.numMips) <= AtLeastOne(t.levels)
  }

  predicate SlicesFit(t: Texture) {
    t.firstSlice <= 0x1FFF && AtLeastOne(t.numSlices) <= 0x2000 && t.firstSlice + AtLeastOne(t.numSlices) <= 0x2000
  }

  predicate FormatFits(format: bv32) {
    (Compressed(format) || FormatBits(format) != 0) && format & 0xFFFF_F0C0 == 0
  }

  predicate SelectorsFit(map_: bv32) {
    SelectorX(map_) <= 5 && SelectorY(map_) <= 5 && SelectorZ(map_) <= 5 && SelectorW(map_) <= 5
  }

  predicate PitchFits(t: Texture) { Compressed(t.format) ==> t.pitch <= 0x3FFF_FFFF }

  /** A whole number of cubes. */
  predicate CubeMultiple(depth: bv32) { depth >= 6 && depth % 6 == 0 }

  predicate CubeFits(t: Texture) { t.dimension == 3 ==> CubeMultiple(AtLeastOne(t.depth)) }

  predicate Accepted(t: Texture) {
    DimensionsFit(t) && MipsFit(t) && SlicesFit(t) && FormatFits(t.format) && t.tileMode <= 15 &&
    SelectorsFit(t.componentMap) && PitchFits(t) && CubeFits(t)
  }

  predicate DepthUse(use: bv32) { use & DEPTH_BUFFER_USE != 0 }
  predicate SignedFormat(format: bv32) { format & 0x200 != 0 }
  predicate DegammaFormat(format: bv32) { format & 0x400 != 0 }

  function PixelPitch(t: Texture): bv32 { if Compressed(t.format) then t.pitch * 4 else t.pitch }

  function EncodedPitch(pitch: bv32): bv32 { if pitch == 0 then 0x7FF else ((pitch >> 3) - 1) & 0x7FF }

  function EncodedWidth(width: bv32): bv32 { if width == 0 then 0x1FFF else width - 1 }

  /** The cubes in a depth that counts faces. */
  function Cubes(depth: bv32): bv32 { depth / 6 }

  function EncodedDepth(dimension: bv32, depth: bv32): bv32 {
    if dimension == 3 then (if Cubes(depth) == 0 then 0 else Cubes(depth) - 1)
    else if dimension == 2 || dimension == 4 || dimension == 5 || dimension == 7 then depth - 1 else 0
  }

  function NumericFormat(format: bv32): bv32 {
    if format & 0x800 != 0 then 2 else if format & 0x100 != 0 then 1 else 0
  }

  function Bit(b: bool): bv32 { if b then 1 else 0 }

  function LastMip(t: Texture): bv32 {
    if 1 <= t.aaMode <= 3 then t.aaMode else t.firstMip + AtLeastOne(t.numMips) - 1
  }

  function Word0(dimension: bv32, tileMode: bv32, tileType: bv32, pitch: bv32, width: bv32): bv32 {
    (dimension & 7) | ((tileMode & 0xF) << 3) | (tileType << 7) | (pitch << 8) | ((width & 0x1FFF) << 19)
  }

  function Word1(height: bv32, depth: bv32, format: bv32): bv32 {
    ((height - 1) & 0x1FFF) | ((depth & 0x1FFF) << 13) | ((format & 0x3F) << 26)
  }

  function Word4(signed: bv32, numeric: bv32, degamma: bv32, endian: bv32, x: bv32, y: bv32, z: bv32, w: bv32,
                 firstMip: bv32): bv32
  {
    (signed * 0x55) | (numeric << 8) | (degamma << 11) | (endian << 12) | ((2 as bv32) << 14) | (x << 16) | (y << 19) |
    (z << 22) | (w << 25) | ((firstMip & 0xF) << 28)
  }

  function Word5(lastMip: bv32, firstSlice: bv32, lastSlice: bv32, cubeArray: bv32): bv32 {
    (lastMip & 0xF) | ((firstSlice & 0x1FFF) << 4) | ((lastSlice & 0x1FFF) << 17) | (cubeArray << 30)
  }

  const WORD6: bv32 := (4 as bv32) | ((7 as bv32) << 5) | ((2 as bv32) << 30)

  // The fields of the words

  function DimensionOf(w: bv32): bv32 { w & 7 }
  function TileModeOf(w: bv32): bv32 { (w >> 3) & 0xF }
  function TileTypeOf(w: bv32): bv32 { (w >> 7) & 1 }
  function PitchOf(w: bv32): bv32 { (w >> 8) & 0x7FF }
  function WidthOf(w: bv32): bv32 { (w >> 19) & 0x1FFF }
  function HeightOf(w: bv32): bv32 { w & 0x1FFF }
  function DepthOf(w: bv32): bv32 { (w >> 13) & 0x1FFF }
  function FormatOf(w: bv32): bv32 { (w >> 26) & 0x3F }
  function NumericOf(w: bv32): bv32 { (w >> 8) & 3 }
  function DegammaOf(w: bv32): bv32 { (w >> 11) & 1 }
  function EndianOf(w: bv32): bv32 { (w >> 12) & 3 }
  function XOf(w: bv32): bv32 { (w >> 16) & 7 }
  function YOf(w: bv32): bv32 { (w >> 19) & 7 }
  function ZOf(w: bv32): bv32 { (w >> 22) & 7 }
  function WOf(w: bv32): bv32 { (w >> 25) & 7 }
  function BaseLevelOf(w: bv32): bv32 { w >> 28 }
  function LastLevelOf(w: bv32): bv32 { w & 0xF }
  function BaseArrayOf(w: bv32): bv32 { (w >> 4) & 0x1FFF }
  function LastArrayOf(w: bv32): bv32 { (w >> 17) & 0x1FFF }
  function TypeOf(w: bv32): bv32 { w >> 30 }
  function Pixels(pitch: bv32): bv32 { (pitch + 1) * 8 }
  function PlusOne(v: bv32): bv32 { v + 1 }
  function AddressUnits(a: bv32): bv32 { a >> 8 }
  function AddressOf(units: bv32): bv32 { units << 8 }
  predicate Encodable(units: bv32) { units <= 0x00FF_FFFF }

  // One register word at a time

  lemma Word0Decodes(dimension: bv32, tileMode: bv32, tileType: bv32, pitch: bv32, width: bv32)
    requires dimension <= 7 && tileMode <= 15 && tileType <= 1 && pitch <= 0x7FF && width <= 0x1FFF
    ensures var w := Word0(dimension, tileMode, tileType, pitch, width);
            && DimensionOf(w) == dimension && TileModeOf(w) == tileMode && TileTypeOf(w) == tileType
            && PitchOf(w) == pitch && WidthOf(w) == width
  {
  }

  lemma Word1Decodes(height: bv32, depth: bv32, format: bv32)
    requires 1 <= height <= 0x2000 && depth <= 0x1FFF
    ensures var w := Word1(height, depth, format);
            PlusOne(HeightOf(w)) == height && DepthOf(w) == depth && FormatOf(w) == BaseFormat(format)
  {
  }

  lemma Word4Decodes(signed: bv32, numeric: bv32, degamma: bv32, endian: bv32, x: bv32, y: bv32, z: bv32, w: bv32,
                     firstMip: bv32)
    requires signed <= 1 && numeric <= 2 && degamma <= 1 && endian <= 3 && firstMip <= 15
    requires x <= 5 && y <= 5 && z <= 5 && w <= 5
    ensures var v := Word4(signed, numeric, degamma, endian, x, y, z, w, firstMip);
            && NumericOf(v) == numeric && DegammaOf(v) == degamma && EndianOf(v) == endian
            && XOf(v) == x && YOf(v) == y && ZOf(v) == z && WOf(v) == w && BaseLevelOf(v) == firstMip
  {
  }

  lemma Word5Decodes(lastMip: bv32, firstSlice: bv32, lastSlice: bv32, cubeArray: bv32)
    requires lastMip <= 15 && firstSlice <= 0x1FFF && lastSlice <= 0x1FFF && cubeArray <= 1
    ensures var v := Word5(lastMip, firstSlice, lastSlice, cubeArray);
            LastLevelOf(v) == lastMip && BaseArrayOf(v) == firstSlice && LastArrayOf(v) == lastSlice
  {
  }

  /** The pitch survives exactly when it is a positive multiple of eight that fits its field. */
  lemma PitchExact(pitch: bv32)
    ensures EncodedPitch(pitch) <= 0x7FF
    ensures Pixels(EncodedPitch(pitch)) == pitch <==> pitch != 0 && pitch & 7 == 0 && pitch <= 0x4000
  {
  }

  /** The width survives exactly when it is not zero. */
  lemma WidthExact(width: bv32)
    requires width <= 0x2000
    ensures EncodedWidth(width) <= 0x1FFF
    ensures PlusOne(EncodedWidth(width)) == width <==> width != 0
  {
  }

  predicate HasDepth(dimension: bv32) {
    dimension == 2 || dimension == 3 || dimension == 4 || dimension == 5 || dimension == 7
  }

  function DecodedDepth(dimension: bv32, encoded: bv32): bv32 {
    if dimension == 3 then (encoded + 1) * 6 else encoded + 1
  }

  lemma SixDivides(depth: bv32)
    requires 6 <= depth <= 0x2000 && depth % 6 == 0
    ensures Cubes(depth) * 6 == depth && 1 <= Cubes(depth) <= 0x555
  {
    SixBound(depth);
    SixExact(depth);
  }

  lemma SixBound(depth: bv32)
    requires 6 <= depth <= 0x2000
    ensures 1 <= depth / 6 <= 0x555
  {
  }

  lemma SixExact(depth: bv32)
    requires depth <= 0x2000 && depth % 6 == 0
    ensures (depth / 6) * 6 == depth
  {
  }

  lemma CubeDepth(depth: bv32)
    requires CubeMultiple(depth) && depth <= 0x2000
    ensures EncodedDepth(3, depth) <= 0x1FFF && DecodedDepth(3, EncodedDepth(3, depth)) == depth
  {
    hide *;
    AtLeastSix(depth);
    SixDivides(depth);
    var q := Cubes(depth);
    MinusPlus(q);
    CubeEncoded(depth, q);
    CubeDecoded(q);
  }

  lemma AtLeastSix(depth: bv32)
    requires CubeMultiple(depth)
    ensures 6 <= depth && depth % 6 == 0
  {
  }

  lemma CubeEncoded(depth: bv32, q: bv32)
    requires Cubes(depth) == q && 1 <= q
    ensures EncodedDepth(3, depth) == q - 1
  {
    hide Cubes;
  }

  lemma CubeDecoded(q: bv32)
    requires q - 1 + 1 == q
    ensures DecodedDepth(3, q - 1) == q * 6
  {
  }

  lemma MinusPlus(q: bv32)
    requires 1 <= q <= 0x555
    ensures q - 1 + 1 == q && q - 1 <= 0x1FFF
  {
  }

  lemma FlatDepth(dimension: bv32, depth: bv32)
    requires dimension <= 7 && dimension != 3 && 1 <= depth <= 0x2000
    ensures EncodedDepth(dimension, depth) <= 0x1FFF
    ensures DecodedDepth(dimension, EncodedDepth(dimension, depth)) == depth <==>
              (dimension == 2 || dimension == 4 || dimension == 5 || dimension == 7 || depth == 1)
  {
  }

  /** The depth survives exactly when the dimension has one, or it is one. */
  lemma DepthExact(dimension: bv32, depth: bv32)
    requires dimension <= 7 && 1 <= depth <= 0x2000 && (dimension == 3 ==> CubeMultiple(depth))
    ensures EncodedDepth(dimension, depth) <= 0x1FFF
    ensures DecodedDepth(dimension, EncodedDepth(dimension, depth)) == depth <==> (HasDepth(dimension) || depth == 1)
  {
    hide EncodedDepth, DecodedDepth, CubeMultiple;
    if dimension == 3 { CubeDepth(depth); } else { FlatDepth(dimension, depth); }
  }

  // Encoder and decoder

  function EncodedEndian(format: bv32): bv32 {
    if EndianSwap(format).Some? then EndianSwap(format).value else 0
  }

  function LastSlice(t: Texture): bv32 { t.firstSlice + AtLeastOne(t.numSlices) - 1 }

  function TextureDepth(t: Texture): bv32 { EncodedDepth(t.dimension, AtLeastOne(t.depth)) }

  predicate CubeArray(t: Texture) { t.dimension == 3 && TextureDepth(t) != 0 }

  function TextureWord0(t: Texture): bv32 {
    Word0(t.dimension, t.tileMode, Bit(DepthUse(t.use)), EncodedPitch(PixelPitch(t)), EncodedWidth(t.width))
  }

  function TextureWord1(t: Texture): bv32 { Word1(AtLeastOne(t.height), TextureDepth(t), t.format) }

  function TextureWord4(t: Texture): bv32 {
    Word4(Bit(SignedFormat(t.format)), NumericFormat(t.format), Bit(DegammaFormat(t.format)), EncodedEndian(t.format),
          SelectorX(t.componentMap), SelectorY(t.componentMap), SelectorZ(t.componentMap), SelectorW(t.componentMap),
          t.firstMip)
  }

  function TextureWord5(t: Texture): bv32 { Word5(LastMip(t), t.firstSlice, LastSlice(t), Bit(CubeArray(t))) }

  /** What `initialize_gx2_texture_registers` stores, if it accepts the texture. */
  function Encode(t: Texture): (r: Option<seq<bv32>>)
    ensures r.Some? <==> Accepted(t)
    ensures r.Some? ==> |r.value| == 5
  {
    if Accepted(t) then Some([TextureWord0(t), TextureWord1(t), TextureWord4(t), TextureWord5(t), WORD6]) else None
  }

  predicate ValidSelectors(selectors: seq<bv32>) {
    |selectors| == 4 && selectors[0] <= 5 && selectors[1] <= 5 && selectors[2] <= 5 && selectors[3] <= 5
  }

  /** `decode_latte_texture_resource`. */
  function Decode(w: seq<bv32>): Option<Descriptor>
    requires |w| == 7
  {
    var selectors := [XOf(w[4]), YOf(w[4]), ZOf(w[4]), WOf(w[4])];
    if TypeOf(w[6]) != 2 || !Encodable(w[2]) || !Encodable(w[3]) then None
    else if FormatOf(w[1]) == 0 || NumericOf(w[4]) == 3 then None
    else if !ValidSelectors(selectors) then None
    else
      Some(Descriptor(
        DimensionOf(w[0]), TileModeOf(w[0]), TileTypeOf(w[0]) != 0, Pixels(PitchOf(w[0])), PlusOne(WidthOf(w[0])),
        PlusOne(HeightOf(w[1])), DecodedDepth(DimensionOf(w[0]), DepthOf(w[1])), FormatOf(w[1]),
        AddressOf(w[2]), AddressOf(w[3]), NumericOf(w[4]), EndianOf(w[4]), DegammaOf(w[4]) != 0, selectors,
        BaseLevelOf(w[4]), LastLevelOf(w[5]), BaseArrayOf(w[5]), LastArrayOf(w[5])))
  }

  function PageOf(a: bv32): bv32 { a & 0xFFFF_FF00 }

  /** The descriptor an accepted texture stands for: its own fields, with the addresses of the binding. */
  function Meaning(t: Texture, image: bv32, mipmap: bv32): Descriptor {
    Descriptor(
      t.dimension, t.tileMode, DepthUse(t.use), Pixels(EncodedPitch(PixelPitch(t))), PlusOne(EncodedWidth(t.width)),
      AtLeastOne(t.height), DecodedDepth(t.dimension, TextureDepth(t)), BaseFormat(t.format), PageOf(image),
      PageOf(mipmap), NumericFormat(t.format), EncodedEndian(t.format), DegammaFormat(t.format),
      [SelectorX(t.componentMap), SelectorY(t.componentMap), SelectorZ(t.componentMap), SelectorW(t.componentMap)],
      t.firstMip, LastMip(t), t.firstSlice, LastSlice(t))
  }

  lemma AddressDecodes(a: bv32)
    ensures Encodable(AddressUnits(a)) && AddressOf(AddressUnits(a)) == PageOf(a)
  {
  }

  lemma Word6Type()
    ensures TypeOf(WORD6) == 2
  {
  }

  lemma BitDecodes(b: bool)
    ensures Bit(b) <= 1 && (Bit(b) != 0 <==> b)
  {
  }

  lemma AtLeastOneBounds(v: bv32)
    ensures AtLeastOne(v) >= 1
  {
  }

  lemma MipBounds(t: Texture)
    requires MipsFit(t)
    ensures LastMip(t) <= 15
  {
  }

  lemma SliceBounds(t: Texture)
    requires SlicesFit(t)
    ensures t.firstSlice <= 0x1FFF && LastSlice(t) <= 0x1FFF
  {
  }

  lemma FormatBounds(format: bv32)
    requires FormatFits(format)
    ensures NumericFormat(format) <= 2 && NumericFormat(format) != 3 && BaseFormat(format) != 0
    ensures EncodedEndian(format) <= 3
  {
    EndianKnown(format);
    NumericBounds(format);
    hide NumericFormat, EndianSwap, FormatBits, BaseFormat, Compressed;
  }

  lemma NumericBounds(format: bv32)
    ensures NumericFormat(format) <= 2
  {
  }

  lemma DimensionBounds(t: Texture)
    requires DimensionsFit(t) && CubeFits(t)
    ensures t.dimension <= 7 && t.width <= 0x2000 && 1 <= AtLeastOne(t.depth) <= 0x2000
    ensures t.dimension == 3 ==> CubeMultiple(AtLeastOne(t.depth))
    ensures 1 <= AtLeastOne(t.height) <= 0x2000
  {
    AtLeastOneBounds(t.depth);
    AtLeastOneBounds(t.height);
    hide AtLeastOne, CubeMultiple;
  }

  lemma DepthBounds(t: Texture)
    requires DimensionsFit(t) && CubeFits(t)
    ensures t.dimension <= 7 && TextureDepth(t) <= 0x1FFF
    ensures 1 <= AtLeastOne(t.height) <= 0x2000 && EncodedWidth(t.width) <= 0x1FFF
  {
    TextureDepthIs(t);
    hide *;
    DimensionBounds(t);
    WidthExact(t.width);
    DepthExact(t.dimension, AtLeastOne(t.depth));
  }

  lemma TextureDepthIs(t: Texture)
    ensures TextureDepth(t) == EncodedDepth(t.dimension, AtLeastOne(t.depth))
  {
    hide EncodedDepth, AtLeastOne;
  }

  lemma ShapeWordsDecode(t: Texture)
    requires Accepted(t)
    ensures var w := TextureWord0(t);
            && DimensionOf(w) == t.dimension && TileModeOf(w) == t.tileMode && TileTypeOf(w) == Bit(DepthUse(t.use))
            && PitchOf(w) == EncodedPitch(PixelPitch(t)) && WidthOf(w) == EncodedWidth(t.width)
    ensures var w := TextureWord1(t);
            && PlusOne(HeightOf(w)) == AtLeastOne(t.height) && DepthOf(w) == TextureDepth(t)
            && FormatOf(w) == BaseFormat(t.format)
  {
    hide *;
    AcceptedParts(t);
    DepthBounds(t);
    PitchExact(PixelPitch(t));
    BitDecodes(DepthUse(t.use));
    Word0Decodes(t.dimension, t.tileMode, Bit(DepthUse(t.use)), EncodedPitch(PixelPitch(t)), EncodedWidth(t.width));
    Word1Decodes(AtLeastOne(t.height), TextureDepth(t), t.format);
    WordsAre(t);
  }

  lemma AcceptedParts(t: Texture)
    requires Accepted(t)
    ensures DimensionsFit(t) && MipsFit(t) && SlicesFit(t) && FormatFits(t.format) && t.tileMode <= 15
    ensures SelectorsFit(t.componentMap) && PitchFits(t) && CubeFits(t)
  {
    hide DimensionsFit, MipsFit, SlicesFit, FormatFits, SelectorsFit, PitchFits, CubeFits;
  }

  lemma WordsAre(t: Texture)
    ensures TextureWord0(t) == Word0(t.dimension, t.tileMode, Bit(DepthUse(t.use)), EncodedPitch(PixelPitch(t)),
                                     EncodedWidth(t.width))
    ensures TextureWord1(t) == Word1(AtLeastOne(t.height), TextureDepth(t), t.format)
    ensures TextureWord4(t) ==
            Word4(Bit(SignedFormat(t.format)), NumericFormat(t.format), Bit(DegammaFormat(t.format)),
                  EncodedEndian(t.format), SelectorX(t.componentMap), SelectorY(t.componentMap),
                  SelectorZ(t.componentMap), SelectorW(t.componentMap), t.firstMip)
    ensures TextureWord5(t) == Word5(LastMip(t), t.firstSlice, LastSlice(t), Bit(CubeArray(t)))
  {
    hide Word0, Word1, Word4, Word5, Bit, DepthUse, EncodedPitch, PixelPitch, EncodedWidth, AtLeastOne, TextureDepth,
         SignedFormat, NumericFormat, DegammaFormat, EncodedEndian, SelectorX, SelectorY, SelectorZ, SelectorW,
         LastMip, LastSlice, CubeArray;
  }

  lemma SelectorBounds(map_: bv32)
    requires SelectorsFit(map_)
    ensures SelectorX(map_) <= 5 && SelectorY(map_) <= 5 && SelectorZ(map_) <= 5 && SelectorW(map_) <= 5
    ensures ValidSelectors([SelectorX(map_), SelectorY(map_), SelectorZ(map_), SelectorW(map_)])
  {
    hide SelectorX, SelectorY, SelectorZ, SelectorW;
  }

  lemma FirstMipBound(t: Texture)
    requires MipsFit(t)
    ensures t.firstMip <= 15
  {
  }

  lemma FormatWordDecodes(t: Texture)
    requires Accepted(t)
    ensures var v := TextureWord4(t);
            && NumericOf(v) == NumericFormat(t.format) && DegammaOf(v) == Bit(DegammaFormat(t.format))
            && EndianOf(v) == EncodedEndian(t.format) && BaseLevelOf(v) == t.firstMip
            && XOf(v) == SelectorX(t.componentMap) && YOf(v) == SelectorY(t.componentMap)
            && ZOf(v) == SelectorZ(t.componentMap) && WOf(v) == SelectorW(t.componentMap)
  {
    hide *;
    AcceptedParts(t);
    FormatBounds(t.format);
    SelectorBounds(t.componentMap);
    FirstMipBound(t);
    BitDecodes(SignedFormat(t.format));
    BitDecodes(DegammaFormat(t.format));
    Word4Decodes(Bit(SignedFormat(t.format)), NumericFormat(t.format), Bit(DegammaFormat(t.format)),
                 EncodedEndian(t.format), SelectorX(t.componentMap), SelectorY(t.componentMap),
                 SelectorZ(t.componentMap), SelectorW(t.componentMap), t.firstMip);
    WordsAre(t);
  }

  lemma RangeWordDecodes(t: Texture)
    requires Accepted(t)
    ensures var v := TextureWord5(t);
            LastLevelOf(v) == LastMip(t) && BaseArrayOf(v) == t.firstSlice && LastArrayOf(v) == LastSlice(t)
  {
    hide *;
    AcceptedParts(t);
    MipBounds(t);
    SliceBounds(t);
    BitDecodes(CubeArray(t));
    Word5Decodes(LastMip(t), t.firstSlice, LastSlice(t), Bit(CubeArray(t)));
    WordsAre(t);
  }

  /** The seven words that a binding writes. */
  function ResourceWords(regs: seq<bv32>, image: bv32, mipmap: bv32): (w: seq<bv32>)
    requires |regs| == 5
    ensures |w| == 7
  {
    [regs[0], regs[1], AddressUnits(image), AddressUnits(mipmap), regs[2], regs[3], regs[4]]
  }

  /** Every accepted texture decodes, and to what it means. */
  lemma DecodeEncoded(t: Texture, image: bv32, mipmap: bv32)
    requires Accepted(t)
    ensures Decode(ResourceWords(Encode(t).value, image, mipmap)) == Some(Meaning(t, image, mipmap))
  {
    AcceptedParts(t);
    hide Accepted, DimensionsFit, MipsFit, SlicesFit, FormatFits, SelectorsFit, PitchFits, CubeFits,
         TextureWord0, TextureWord1, TextureWord4, TextureWord5, WORD6, DimensionOf, TileModeOf, TileTypeOf, PitchOf,
         WidthOf, HeightOf, DepthOf, FormatOf, NumericOf, DegammaOf, EndianOf, XOf, YOf, ZOf, WOf, BaseLevelOf,
         LastLevelOf, BaseArrayOf, LastArrayOf, TypeOf, Pixels, PlusOne, AddressUnits, AddressOf, Encodable, PageOf,
         DecodedDepth, TextureDepth, Bit, DepthUse, DegammaFormat, NumericFormat, EncodedEndian, SelectorX, SelectorY,
         SelectorZ, SelectorW, LastMip, LastSlice, EncodedPitch, EncodedWidth, PixelPitch, AtLeastOne, BaseFormat,
         ValidSelectors;
    ShapeWordsDecode(t);
    FormatWordDecodes(t);
    RangeWordDecodes(t);
    AddressDecodes(image);
    AddressDecodes(mipmap);
    Word6Type();
    BitDecodes(DepthUse(t.use));
    BitDecodes(DegammaFormat(t.format));
    FormatBounds(t.format);
    SelectorBounds(t.componentMap);
  }

  predicate PitchEncodable(p: bv32) { p != 0 && p & 7 == 0 && p <= 0x4000 }

  lemma MeaningFields(t: Texture, image: bv32, mipmap: bv32)
    ensures Meaning(t, image, mipmap).pitchPixels == Pixels(EncodedPitch(PixelPitch(t)))
    ensures Meaning(t, image, mipmap).width == PlusOne(EncodedWidth(t.width))
    ensures Meaning(t, image, mipmap).depthOrLayers == DecodedDepth(t.dimension, TextureDepth(t))
    ensures TextureDepth(t) == EncodedDepth(t.dimension, AtLeastOne(t.depth))
  {
    hide Pixels, PlusOne, DecodedDepth, EncodedPitch, PixelPitch, EncodedWidth, EncodedDepth, AtLeastOne;
  }

  lemma PitchSurvives(p: bv32)
    ensures Pixels(EncodedPitch(p)) == p <==> PitchEncodable(p)
  {
    PitchExact(p);
    hide Pixels, EncodedPitch;
  }

  /** The conditions under which pitch, width and depth survive the round trip. */
  lemma FieldsSurvive(t: Texture, image: bv32, mipmap: bv32)
    requires Accepted(t)
    ensures Meaning(t, image, mipmap).pitchPixels == PixelPitch(t) <==> PitchEncodable(PixelPitch(t))
    ensures Meaning(t, image, mipmap).width == t.width <==> t.width != 0
    ensures Meaning(t, image, mipmap).depthOrLayers == AtLeastOne(t.depth) <==>
              (HasDepth(t.dimension) || AtLeastOne(t.depth) == 1)
  {
    hide *;
    AcceptedParts(t);
    MeaningFields(t, image, mipmap);
    DimensionBounds(t);
    PitchSurvives(PixelPitch(t));
    WidthExact(t.width);
    DepthExact(t.dimension, AtLeastOne(t.depth));
  }

  /** The last level is the view's own unless multisampling replaces it. */
  lemma LastLevelSurvives(t: Texture)
    requires MipsFit(t)
    ensures LastMip(t) == t.firstMip + AtLeastOne(t.numMips) - 1 <==>
              (t.aaMode == 0 || t.aaMode == t.firstMip + AtLeastOne(t.numMips) - 1)
  {
  }

  /** The last level of the view. */
  function ViewLast(t: Texture): bv32 { t.firstMip + AtLeastOne(t.numMips) - 1 }

  /**
   * The selectors are the low three bits of the four bytes of the component map, from the top, and the endian
   * code is that of the elements.
   */
  lemma SelectorsAndEndian(t: Texture, image: bv32, mipmap: bv32, x: bv32, y: bv32, z: bv32, w: bv32)
    requires Accepted(t) && x <= 0xFF && y <= 0xFF && z <= 0xFF && w <= 0xFF
    requires t.componentMap == (x << 24) | (y << 16) | (z << 8) | w
    ensures Meaning(t, image, mipmap).selectors == [x & 7, y & 7, z & 7, w & 7]
    ensures Meaning(t, image, mipmap).endianSwap ==
            if Compressed(t.format) || WordComponents(t.format) || FormatBits(t.format) == 8 then 0
            else if FormatBits(t.format) == 16 then 1 else if FormatBits(t.format) == 32 then 2 else 3
  {
    SelectorBytes(x, y, z, w);
    EndianAccepted(t);
    hide SelectorX, SelectorY, SelectorZ, SelectorW, Accepted, EncodedEndian, WordComponents, FormatBits, Compressed;
  }

  /** Height, first level and first slice of the view, and the flags of use and format. */
  lemma ViewAndFlags(t: Texture, image: bv32, mipmap: bv32)
    requires Accepted(t)
    ensures var m := Meaning(t, image, mipmap);
            && m.dimension == t.dimension && m.tileMode == t.tileMode && (m.depthTile <==> t.use & 4 != 0)
            && m.height == (if t.height == 0 then 1 else t.height) && m.format == t.format & 0x3F
            && m.baseLevel == t.firstMip && m.baseArray == t.firstSlice
            && (m.forceDegamma <==> t.format & 0x400 != 0)
            && (t.format & 0x800 != 0 ==> m.numericFormat == 2)
            && (t.format & 0x900 == 0 ==> m.numericFormat == 0)
            && (t.format & 0x900 == 0x100 ==> m.numericFormat == 1)
  {
    Numeric(t.format);
    FlagsOf(t);
    hide Accepted, LastSlice, EncodedPitch, EncodedWidth, DecodedDepth, EncodedDepth, EncodedEndian;
    hide PixelPitch, LastMip, PageOf, Pixels, PlusOne;
    hide SelectorX, SelectorY, SelectorZ, SelectorW, NumericFormat, DepthUse, DegammaFormat, BaseFormat;
  }

  lemma FlagsOf(t: Texture)
    ensures DepthUse(t.use) <==> t.use & 4 != 0
    ensures DegammaFormat(t.format) <==> t.format & 0x400 != 0
    ensures BaseFormat(t.format) == t.format & 0x3F
  {
  }

  lemma Numeric(format: bv32)
    ensures format & 0x800 != 0 ==> NumericFormat(format) == 2
    ensures format & 0x900 == 0 ==> NumericFormat(format) == 0
    ensures format & 0x900 == 0x100 ==> NumericFormat(format) == 1
  {
  }

  lemma SelectorBytes(x: bv32, y: bv32, z: bv32, w: bv32)
    requires x <= 0xFF && y <= 0xFF && z <= 0xFF && w <= 0xFF
    ensures SelectorX((x << 24) | (y << 16) | (z << 8) | w) == x & 7
    ensures SelectorY((x << 24) | (y << 16) | (z << 8) | w) == y & 7
    ensures SelectorZ((x << 24) | (y << 16) | (z << 8) | w) == z & 7
    ensures SelectorW((x << 24) | (y << 16) | (z << 8) | w) == w & 7
  {
  }

  lemma EndianAccepted(t: Texture)
    requires Accepted(t)
    ensures EncodedEndian(t.format) ==
            if Compressed(t.format) || WordComponents(t.format) || FormatBits(t.format) == 8 then 0
            else if FormatBits(t.format) == 16 then 1 else if FormatBits(t.format) == 32 then 2 else 3
  {
    FormatAccepted(t);
    EndianByElement(t.format);
    hide Accepted, WordComponents, FormatBits, Compressed, EndianSwap;
  }

  lemma FormatAccepted(t: Texture)
    requires Accepted(t)
    ensures FormatBits(t.format) != 0 || Compressed(t.format)
  {
    hide DimensionsFit, MipsFit, SlicesFit, SelectorsFit, PitchFits, CubeFits, FormatBits, Compressed;
  }

  /**
   * The encoder accepts exactly the textures whose fields fit: a known format without other bits than those of
   * layout, number, sign and degamma, a view inside its surface, whole cubes, and a pitch in pixels below 2^32.
   */
  lemma AcceptedExactly(t: Texture)
    ensures Accepted(t) <==>
            && t.dimension <= 7 && t.tileMode <= 15
            && t.width <= 0x2000 && t.height <= 0x2000 && t.depth <= 0x2000
            && EndianSwap(t.format).Some? && t.format == (t.format & 0x3F) | (t.format & 0xF00)
            && SelectorX(t.componentMap) <= 5 && SelectorY(t.componentMap) <= 5
            && SelectorZ(t.componentMap) <= 5 && SelectorW(t.componentMap) <= 5
            && (Compressed(t.format) ==> (t.pitch * 4) >> 2 == t.pitch)
            && (t.dimension == 3 ==> t.depth >= 6 && t.depth % 6 == 0)
            && MipsFit(t) && SlicesFit(t)
  {
    hide *;
    AcceptedAll(t);
    DimensionsExact(t);
    SelectorsExact(t);
    FormatExact(t.format);
    PitchFitsExact(t);
    CubesExact(t);
  }

  lemma AcceptedAll(t: Texture)
    ensures Accepted(t) <==>
            && DimensionsFit(t) && MipsFit(t) && SlicesFit(t) && FormatFits(t.format) && t.tileMode <= 15
            && SelectorsFit(t.componentMap) && PitchFits(t) && CubeFits(t)
  {
    hide DimensionsFit, MipsFit, SlicesFit, FormatFits, SelectorsFit, PitchFits, CubeFits;
  }

  lemma AtMost(v: bv32)
    ensures AtLeastOne(v) <= 0x2000 <==> v <= 0x2000
  {
  }

  lemma DimensionsExact(t: Texture)
    ensures DimensionsFit(t) <==> t.dimension <= 7 && t.width <= 0x2000 && t.height <= 0x2000 && t.depth <= 0x2000
  {
    hide *;
    DimensionsAre(t);
    AtMost(t.height);
    AtMost(t.depth);
  }

  lemma DimensionsAre(t: Texture)
    ensures DimensionsFit(t) <==>
            && t.dimension <= 7 && t.width <= 0x2000
            && AtLeastOne(t.height) <= 0x2000 && AtLeastOne(t.depth) <= 0x2000
  {
    hide AtLeastOne;
  }

  lemma SelectorsExact(t: Texture)
    ensures SelectorsFit(t.componentMap) <==>
            && SelectorX(t.componentMap) <= 5 && SelectorY(t.componentMap) <= 5
            && SelectorZ(t.componentMap) <= 5 && SelectorW(t.componentMap) <= 5
  {
    hide SelectorX, SelectorY, SelectorZ, SelectorW;
  }

  lemma FormatExact(format: bv32)
    ensures FormatFits(format) <==> EndianSwap(format).Some? && format == (format & 0x3F) | (format & 0xF00)
  {
    EndianKnown(format);
    hide EndianSwap, FormatBits, Compressed;
  }

  lemma PitchFitsExact(t: Texture)
    ensures PitchFits(t) <==> (Compressed(t.format) ==> (t.pitch * 4) >> 2 == t.pitch)
  {
    hide Compressed;
  }

  lemma CubesExact(t: Texture)
    ensures CubeFits(t) <==> (t.dimension == 3 ==> t.depth >= 6 && t.depth % 6 == 0)
  {
    WholeCubes(t.depth);
    hide CubeMultiple, AtLeastOne;
  }

  lemma WholeCubes(depth: bv32)
    ensures CubeMultiple(AtLeastOne(depth)) <==> depth >= 6 && depth % 6 == 0
  {
    if depth == 0 {
      assert AtLeastOne(depth) == 1;
      OneIsNoCube();
    } else {
      assert AtLeastOne(depth) == depth;
      hide AtLeastOne;
    }
  }

  lemma OneIsNoCube()
    ensures !CubeMultiple(1)
  {
  }

  /**
   * The bits that the decoder does not read: all four components are signed or none, format bit 9, and a cube is
   * one of an array when it has more than six faces.
   */
  lemma SignAndCube(t: Texture)
    requires Accepted(t)
    ensures Encode(t).value[2] & 0xFF == (if t.format & 0x200 != 0 then 0x55 else 0)
    ensures Encode(t).value[3] >> 30 == (if t.dimension == 3 && t.depth > 6 then 1 else 0)
  {
    SelectorsBound(t);
    AcceptedParts(t);
    FormatBounds(t.format);
    SignBits(Bit(SignedFormat(t.format)), NumericFormat(t.format), Bit(DegammaFormat(t.format)),
             EncodedEndian(t.format), SelectorX(t.componentMap), SelectorY(t.componentMap),
             SelectorZ(t.componentMap), SelectorW(t.componentMap), t.firstMip);
    CubeBits(LastMip(t), t.firstSlice, LastSlice(t), Bit(CubeArray(t)));
    CubeArrayMeans(t);
    hide *;
    EncodedWords(t);
    WordsAre(t);
    SignMeans(t.format);
  }

  lemma EncodedWords(t: Texture)
    requires Accepted(t)
    ensures Encode(t).value[2] == TextureWord4(t) && Encode(t).value[3] == TextureWord5(t)
  {
    hide Accepted, TextureWord0, TextureWord1, TextureWord4, TextureWord5;
  }

  lemma SignMeans(format: bv32)
    ensures Bit(SignedFormat(format)) == if format & 0x200 != 0 then 1 else 0
  {
  }

  lemma SelectorsBound(t: Texture)
    requires Accepted(t)
    ensures SelectorX(t.componentMap) <= 7 && SelectorY(t.componentMap) <= 7
    ensures SelectorZ(t.componentMap) <= 7 && SelectorW(t.componentMap) <= 7
    ensures Bit(SignedFormat(t.format)) <= 1 && Bit(DegammaFormat(t.format)) <= 1 && Bit(CubeArray(t)) <= 1
  {
    hide Accepted, SignedFormat, DegammaFormat, CubeArray;
  }

  lemma SignBits(signed: bv32, numeric: bv32, degamma: bv32, endian: bv32, x: bv32, y: bv32, z: bv32, w: bv32,
                 firstMip: bv32)
    requires signed <= 1
    ensures Word4(signed, numeric, degamma, endian, x, y, z, w, firstMip) & 0xFF == if signed == 1 then 0x55 else 0
  {
  }

  lemma CubeBits(lastMip: bv32, firstSlice: bv32, lastSlice: bv32, cubeArray: bv32)
    requires cubeArray <= 1
    ensures Word5(lastMip, firstSlice, lastSlice, cubeArray) >> 30 == cubeArray
  {
  }

  lemma CubeArrayMeans(t: Texture)
    requires DimensionsFit(t) && CubeFits(t)
    ensures Bit(CubeArray(t)) == if t.dimension == 3 && t.depth > 6 then 1 else 0
  {
  }

  /** What the decoder should give back: the surface and view as the program described them. */
  function Described(t: Texture, image: bv32, mipmap: bv32): Descriptor {
    Meaning(t, image, mipmap).(
      pitchPixels := PixelPitch(t), width := t.width, depthOrLayers := AtLeastOne(t.depth),
      lastLevel := ViewLast(t))
  }

  /** The registers can hold the texture: pitch, width and depth have a code, and the level is not replaced. */
  predicate Representable(t: Texture) {
    && PitchEncodable(PixelPitch(t)) && t.width != 0
    && (HasDepth(t.dimension) || AtLeastOne(t.depth) == 1)
    && (t.aaMode == 0 || t.aaMode == ViewLast(t))
  }

  /** An accepted texture decodes to its own description exactly when the registers can hold it. */
  lemma DescribedExactly(t: Texture, image: bv32, mipmap: bv32)
    requires Accepted(t)
    ensures Decode(ResourceWords(Encode(t).value, image, mipmap)) == Some(Described(t, image, mipmap)) <==>
              Representable(t)
  {
    DecodeEncoded(t, image, mipmap);
    hide *;
    AcceptedParts(t);
    FieldsSurvive(t, image, mipmap);
    LevelSurvives(t);
    DescribedDiffers(t, image, mipmap);
  }

  lemma LevelSurvives(t: Texture)
    requires MipsFit(t)
    ensures LastMip(t) == ViewLast(t) <==> t.aaMode == 0 || t.aaMode == ViewLast(t)
  {
    LastLevelSurvives(t);
  }

  lemma DescribedDiffers(t: Texture, image: bv32, mipmap: bv32)
    ensures Meaning(t, image, mipmap) == Described(t, image, mipmap) <==>
              && Meaning(t, image, mipmap).pitchPixels == PixelPitch(t)
              && Meaning(t, image, mipmap).width == t.width
              && Meaning(t, image, mipmap).depthOrLayers == AtLeastOne(t.depth)
              && LastMip(t) == ViewLast(t)
  {
    MeaningLevel(t, image, mipmap);
    var d := Meaning(t, image, mipmap);
    DescribedIs(t, image, mipmap);
    hide *;
    FourFields(d, PixelPitch(t), t.width, AtLeastOne(t.depth), ViewLast(t));
  }

  lemma MeaningLevel(t: Texture, image: bv32, mipmap: bv32)
    ensures Meaning(t, image, mipmap).lastLevel == LastMip(t)
  {
    hide LastMip;
  }

  lemma DescribedIs(t: Texture, image: bv32, mipmap: bv32)
    ensures Described(t, image, mipmap) ==
            Meaning(t, image, mipmap).(
              pitchPixels := PixelPitch(t), width := t.width, depthOrLayers := AtLeastOne(t.depth),
              lastLevel := ViewLast(t))
  {
    hide Meaning, PixelPitch, AtLeastOne, ViewLast;
  }

  lemma FourFields(d: Descriptor, pitch: bv32, width: bv32, depth: bv32, level: bv32)
    ensures d == d.(pitchPixels := pitch, width := width, depthOrLayers := depth, lastLevel := level) <==>
              d.pitchPixels == pitch && d.width == width && d.depthOrLayers == depth && d.lastLevel == level
  {
  }

  // Textures that are accepted but not represented

  /** A 64 by 64 image, with the fields that the counterexamples change. */
  function Sample(width: bv32, depth: bv32, pitch: bv32, levels: bv32, aaMode: bv32): Texture {
    Texture(1, width, 64, depth, levels, 0x1A, aaMode, 1, 1, pitch, 0, levels, 0, 1, 0x0001_0203)
  }

  /** What a texture decodes to once it is encoded. */
  function Decoded(t: Texture, image: bv32, mipmap: bv32): Option<Descriptor> {
    if Accepted(t) then Decode(ResourceWords(Encode(t).value, image, mipmap)) else None
  }

  lemma DecodedMeans(t: Texture, image: bv32, mipmap: bv32)
    requires Accepted(t)
    ensures Decoded(t, image, mipmap) == Some(Meaning(t, image, mipmap))
  {
    DecodeEncoded(t, image, mipmap);
    hide *;
  }

  lemma NarrowPitchIsLost(image: bv32, mipmap: bv32)
    ensures var t := Sample(64, 1, 4, 1, 0);
            Decoded(t, image, mipmap).Some? && Decoded(t, image, mipmap).value.pitchPixels != t.pitch
  {
    var t := Sample(64, 1, 4, 1, 0);
    DecodedMeans(t, image, mipmap);
    hide Decoded;
  }

  lemma ZeroWidthIsLost(image: bv32, mipmap: bv32)
    ensures var t := Sample(0, 1, 64, 1, 0);
            Decoded(t, image, mipmap).Some? && Decoded(t, image, mipmap).value.width != t.width
  {
    var t := Sample(0, 1, 64, 1, 0);
    DecodedMeans(t, image, mipmap);
    hide Decoded;
  }

  lemma FlatDepthIsLost(image: bv32, mipmap: bv32)
    ensures var t := Sample(64, 2, 64, 1, 0);
            Decoded(t, image, mipmap).Some? && Decoded(t, image, mipmap).value.depthOrLayers != t.depth
  {
    var t := Sample(64, 2, 64, 1, 0);
    DecodedMeans(t, image, mipmap);
    hide Decoded;
  }

  lemma SampleCountReplacesLevel(image: bv32, mipmap: bv32)
    ensures var t := Sample(64, 1, 64, 1, 2);
            Decoded(t, image, mipmap).Some? && Decoded(t, image, mipmap).value.lastLevel != ViewLast(t)
  {
    var t := Sample(64, 1, 64, 1, 2);
    DecodedMeans(t, image, mipmap);
    hide Decoded;
  }

  // Binding a texture object of 39 words

  const TEXTURE_OBJECT_WORDS: nat := 39
  const REGS: nat := 34

  function TextureIn(w: seq<bv32>): Texture
    requires |w| == TEXTURE_OBJECT_WORDS
  {
    Texture(w[0], w[1], w[2], w[3], w[4], w[5], w[6], w[7], w[12], w[15], w[29], w[30], w[31], w[32], w[33])
  }

  /** Swizzle bits apply to macro-tiled images, and to mipmaps from the second stop level on. */
  function MacroTiled(tileMode: bv32): bool { 4 <= tileMode <= 15 }
  function StopLevel(swizzle: bv32): bv32 { (swizzle >> 16) & 0xFF }
  function SwizzleBits(swizzle: bv32): bv32 { swizzle & 0xFFFF }
  predicate LowByteClear(swizzle: bv32) { swizzle & 0xFF == 0 }

  function Toggled(a: bv32, applies: bool, bits: bv32): bv32 { if applies then a ^ bits else a }

  function SwizzledImage(image: bv32, tileMode: bv32, swizzle: bv32): bv32 {
    Toggled(image, MacroTiled(tileMode) && StopLevel(swizzle) > 0, SwizzleBits(swizzle))
  }

  function SwizzledMipmap(image: bv32, mipmap: bv32, tileMode: bv32, swizzle: bv32): bv32 {
    Toggled(if mipmap == 0 then image else mipmap, MacroTiled(tileMode) && StopLevel(swizzle) > 1,
            SwizzleBits(swizzle))
  }

  function BoundImage(w: seq<bv32>): bv32
    requires |w| == TEXTURE_OBJECT_WORDS
  {
    SwizzledImage(w[9], w[12], w[13])
  }

  function BoundMipmap(w: seq<bv32>): bv32
    requires |w| == TEXTURE_OBJECT_WORDS
  {
    SwizzledMipmap(w[9], w[11], w[12], w[13])
  }

  /** The swizzle word is a byte, the stop level in the next, and 16 bits of swizzle. */
  lemma SwizzleParts(high: bv32, stop: bv32, bits: bv32)
    requires high <= 0xFF && stop <= 0xFF && bits <= 0xFFFF
    ensures StopLevel((high << 24) | (stop << 16) | bits) == stop
    ensures SwizzleBits((high << 24) | (stop << 16) | bits) == bits
  {
  }

  /** The swizzle bits are toggled in the image address of a macro-tiled texture whose stop level is not 0. */
  lemma ImageSwizzle(image: bv32, tileMode: bv32, swizzle: bv32)
    ensures SwizzledImage(image, tileMode, swizzle) ==
            if 4 <= tileMode <= 15 && StopLevel(swizzle) > 0 then image ^ SwizzleBits(swizzle) else image
  {
    hide StopLevel, SwizzleBits, Toggled;
    ToggledIs(image, SwizzleBits(swizzle));
  }

  /** And in its mipmap address, or the image address if it has none, from stop level 2 on. */
  lemma MipmapSwizzle(image: bv32, mipmap: bv32, tileMode: bv32, swizzle: bv32, a: bv32)
    requires a == if mipmap == 0 then image else mipmap
    ensures SwizzledMipmap(image, mipmap, tileMode, swizzle) ==
            if 4 <= tileMode <= 15 && StopLevel(swizzle) > 1 then a ^ SwizzleBits(swizzle) else a
  {
    hide StopLevel, SwizzleBits, Toggled;
    ToggledIs(a, SwizzleBits(swizzle));
  }

  lemma ToggledIs(a: bv32, bits: bv32)
    ensures Toggled(a, true, bits) == a ^ bits && Toggled(a, false, bits) == a
  {
  }

  predicate ValidPointer(a: bv32, last: bv32) { a != 0 && a & 3 == 0 && a <= last }

  /** The words a binding writes, or none if the call raises an error. */
  function BoundWords(initialised: bool, address: bv32, unit: nat, w: seq<bv32>): (r: Option<seq<bv32>>)
    requires |w| == TEXTURE_OBJECT_WORDS
    ensures r.Some? ==> |r.value| == 7
  {
    if !initialised || !ValidPointer(address, 0xFFFF_FF64) || unit >= UNITS || !LowByteClear(w[13]) then None
    else Some(ResourceWords(w[REGS..], BoundImage(w), BoundMipmap(w)))
  }

  function WriteCommands(first: nat, ws: seq<bv32>): (cs: seq<Command>)
    ensures |cs| == |ws|
    ensures forall i :: 0 <= i < |ws| ==> cs[i] == Write(ShaderResource, first + 4 * i, ws[i])
  {
    if ws == [] then []
    else WriteCommands(first, ws[..|ws| - 1]) + [Write(ShaderResource, first + 4 * (|ws| - 1), ws[|ws| - 1])]
  }

  /** The registers after a stream of writes. */
  function Written(r: map<nat, RegisterValue>, first: nat, ws: seq<bv32>): map<nat, RegisterValue> {
    if ws == [] then r
    else Written(r, first, ws[..|ws| - 1])[first + 4 * (|ws| - 1) := RegisterValue(ShaderResource, ws[|ws| - 1])]
  }

  lemma {:induction false} WritesApplied(s: Shadow, first: nat, ws: seq<bv32>)
    ensures ApplyAll(s, WriteCommands(first, ws)) ==
            s.(bindings := s.bindings.(registers := Written(s.bindings.registers, first, ws)))
    decreases |ws|
  {
    if ws != [] {
      var before := ws[..|ws| - 1];
      WritesApplied(s, first, before);
      assert WriteCommands(first, ws)[..|ws| - 1] == WriteCommands(first, before);
    }
  }

  /** The stream sets exactly its own registers. */
  lemma {:induction false} WrittenMeans(r: map<nat, RegisterValue>, first: nat, ws: seq<bv32>)
    ensures forall i :: 0 <= i < |ws| ==>
              first + 4 * i in Written(r, first, ws) &&
              Written(r, first, ws)[first + 4 * i] == RegisterValue(ShaderResource, ws[i])
    ensures forall a: nat :: a < first || a >= first + 4 * |ws| ==> SameAt(r, Written(r, first, ws), a)
    decreases |ws|
  {
    if ws != [] {
      var before := ws[..|ws| - 1];
      WrittenMeans(r, first, before);
      forall i | 0 <= i < |ws|
        ensures first + 4 * i in Written(r, first, ws)
        ensures Written(r, first, ws)[first + 4 * i] == RegisterValue(ShaderResource, ws[i])
      {
        assert i < |before| ==> before[i] == ws[i];
      }
      forall a: nat | a < first || a >= first + 4 * |ws| ensures SameAt(r, Written(r, first, ws), a) {
        assert SameAt(r, Written(r, first, before), a);
      }
    }
  }

  predicate SameAt(r: map<nat, RegisterValue>, t: map<nat, RegisterValue>, a: nat) {
    (a in r <==> a in t) && (a in r ==> r[a] == t[a])
  }

  function UnitRegister(stage: Stage, unit: nat): nat { TextureBase(stage) + unit * TEXTURE_WORDS * 4 }

  /** Units share registers only if they are the same unit of the same bank. */
  lemma UnitsApart(stage: Stage, unit: nat, other: Stage, otherUnit: nat)
    requires unit < UNITS && otherUnit < UNITS && (TextureBase(stage) != TextureBase(other) || unit != otherUnit)
    ensures UnitRegister(stage, unit) + 28 <= UnitRegister(other, otherUnit) ||
            UnitRegister(other, otherUnit) + 28 <= UnitRegister(stage, unit)
  {
  }

  lemma SameWords(r: map<nat, RegisterValue>, t: map<nat, RegisterValue>, first: nat, count: nat, kind: Kind)
    requires forall i :: 0 <= i < count ==> SameAt(r, t, first + 4 * i)
    ensures Words(r, first, count, kind) == Words(t, first, count, kind)
  {
    if Complete(r, first, count, kind) && Complete(t, first, count, kind) {
      var v, w := Words(r, first, count, kind).value, Words(t, first, count, kind).value;
      assert forall i :: 0 <= i < count ==> SameAt(r, t, first + 4 * i) && v[i] == w[i];
      assert v == w;
    }
  }

  lemma UnitHolds(r: map<nat, RegisterValue>, first: nat, ws: seq<bv32>)
    requires forall i :: 0 <= i < |ws| ==>
               first + 4 * i in r && r[first + 4 * i] == RegisterValue(ShaderResource, ws[i])
    ensures Words(r, first, |ws|, ShaderResource) == Some(ws)
  {
    assert Complete(r, first, |ws|, ShaderResource);
    assert Words(r, first, |ws|, ShaderResource).value == ws;
  }

  /** The unit reads back the words; every other unit reads what it did before. */
  ghost predicate OnlyUnitSet(r: map<nat, RegisterValue>, t: map<nat, RegisterValue>, stage: Stage, unit: nat,
                              ws: seq<bv32>)
  {
    && TextureResource(t, stage, unit) == Some(ws)
    && forall other: Stage, u: nat :: TextureBase(other) != TextureBase(stage) || u != unit ==>
         TextureResource(t, other, u) == TextureResource(r, other, u)
  }

  /** After a binding its unit reads back the words, and no other unit changes. */
  lemma BindingReadsBack(s: Shadow, stage: Stage, unit: nat, ws: seq<bv32>)
    requires unit < UNITS && |ws| == 7
    ensures OnlyUnitSet(s.bindings.registers,
                        ApplyAll(s, WriteCommands(UnitRegister(stage, unit), ws)).bindings.registers, stage, unit, ws)
  {
    var first, r := UnitRegister(stage, unit), s.bindings.registers;
    WritesApplied(s, first, ws);
    WrittenMeans(r, first, ws);
    var t := Written(r, first, ws);
    hide ApplyAll, WriteCommands, SameAt, Words, Written, TextureBase;
    UnitHolds(t, first, ws);
    forall other: Stage, u: nat | TextureBase(other) != TextureBase(stage) || u != unit
      ensures TextureResource(t, other, u) == TextureResource(r, other, u)
    {
      if u < UNITS {
        UnitsApart(stage, unit, other, u);
        SameWords(r, t, UnitRegister(other, u), TEXTURE_WORDS, ShaderResource);
      }
    }
  }

  /** A texture object with its registers filled in. */
  function Prepared(w: seq<bv32>, regs: seq<bv32>): (p: seq<bv32>)
    requires |w| == TEXTURE_OBJECT_WORDS && |regs| == 5
    ensures |p| == TEXTURE_OBJECT_WORDS
  {
    w[..REGS] + regs
  }

  /**
   * The descriptor round trip: a texture that the encoder accepts, bound to any unit of any stage, decodes from the
   * shadow to its own dimensions, format, selectors, mip and slice range and its aligned, swizzled addresses; it is
   * never rejected, and no other unit changes.
   */
  lemma TextureRoundTrip(s: Shadow, w: seq<bv32>, address: bv32, stage: Stage, unit: nat)
    requires |w| == TEXTURE_OBJECT_WORDS && Encode(TextureIn(w)).Some?
    requires BoundWords(true, address, unit, Prepared(w, Encode(TextureIn(w)).value)).Some?
    ensures var ws := BoundWords(true, address, unit, Prepared(w, Encode(TextureIn(w)).value)).value;
            var t := ApplyAll(s, WriteCommands(UnitRegister(stage, unit), ws)).bindings.registers;
            OnlyUnitSet(s.bindings.registers, t, stage, unit, ws) &&
            Decode(ws) == Some(Meaning(TextureIn(w), BoundImage(w), BoundMipmap(w)))
  {
    BoundWordsDecode(w, address, unit);
    hide BoundWords, OnlyUnitSet, Decode, Meaning, Encode, ApplyAll, WriteCommands, Prepared, TextureIn;
    BindingReadsBack(s, stage, unit, BoundWords(true, address, unit, Prepared(w, Encode(TextureIn(w)).value)).value);
  }

  /**
   * The round trip to the program's own texture: from the shadow, the unit decodes to the pitch, width, height,
   * depth, format, selectors and ranges of the texture object exactly when the registers can hold them.
   */
  lemma TextureSurvives(s: Shadow, w: seq<bv32>, address: bv32, stage: Stage, unit: nat)
    requires |w| == TEXTURE_OBJECT_WORDS && Encode(TextureIn(w)).Some?
    requires BoundWords(true, address, unit, Prepared(w, Encode(TextureIn(w)).value)).Some?
    ensures var ws := BoundWords(true, address, unit, Prepared(w, Encode(TextureIn(w)).value)).value;
            var t := ApplyAll(s, WriteCommands(UnitRegister(stage, unit), ws)).bindings.registers;
            && TextureResource(t, stage, unit).Some?
            && (Representable(TextureIn(w)) <==>
                Decode(TextureResource(t, stage, unit).value) ==
                  Some(Described(TextureIn(w), BoundImage(w), BoundMipmap(w))))
  {
    TextureRoundTrip(s, w, address, stage, unit);
    var t := TextureIn(w);
    assert Accepted(t);
    DescribedExactly(t, BoundImage(w), BoundMipmap(w));
    DecodeEncoded(t, BoundImage(w), BoundMipmap(w));
    hide BoundWords, Decode, Meaning, Described, Representable, Encode, ApplyAll, WriteCommands, Prepared, TextureIn,
         Accepted;
  }

  /** Which bindings are accepted: an initialised library, a usable pointer, a unit there is, no low swizzle byte. */
  lemma BindAccepts(initialised: bool, address: bv32, unit: nat, w: seq<bv32>)
    requires |w| == TEXTURE_OBJECT_WORDS
    ensures BoundWords(initialised, address, unit, w).Some? <==>
            && initialised && address != 0 && address & 3 == 0 && address <= 0xFFFF_FF64 && unit < 16
            && w[13] & 0xFF == 0
  {
    hide ResourceWords, BoundImage, BoundMipmap;
  }

  /** Where the words of a texture object end up in its description. */
  lemma ObjectDescribed(w: seq<bv32>)
    requires |w| == TEXTURE_OBJECT_WORDS
    ensures var t := TextureIn(w);
            var d := Described(t, BoundImage(w), BoundMipmap(w));
            && d.dimension == w[0] && d.width == w[1] && d.height == AtLeastOne(w[2])
            && d.depthOrLayers == AtLeastOne(w[3]) && d.format == BaseFormat(w[5]) && (d.depthTile <==> DepthUse(w[7]))
            && d.tileMode == w[12] && d.baseLevel == w[29] && d.baseArray == w[31]
            && d.imageAddress == PageOf(SwizzledImage(w[9], w[12], w[13]))
            && d.mipmapAddress == PageOf(SwizzledMipmap(w[9], w[11], w[12], w[13]))
            && t.pitch == w[15] && t.numMips == w[30] && t.numSlices == w[32]
            && t.componentMap == w[33] && t.levels == w[4] && t.aaMode == w[6]
  {
    hide *;
    DescriptionIs(TextureIn(w), BoundImage(w), BoundMipmap(w));
    ObjectFields(w);
  }

  lemma DescriptionIs(t: Texture, image: bv32, mipmap: bv32)
    ensures var d := Described(t, image, mipmap);
            && d.dimension == t.dimension && d.width == t.width && d.height == AtLeastOne(t.height)
            && d.depthOrLayers == AtLeastOne(t.depth) && d.format == BaseFormat(t.format)
            && (d.depthTile <==> DepthUse(t.use)) && d.tileMode == t.tileMode && d.baseLevel == t.firstMip
            && d.baseArray == t.firstSlice && d.imageAddress == PageOf(image) && d.mipmapAddress == PageOf(mipmap)
  {
    hide AtLeastOne, BaseFormat, DepthUse, PageOf, EncodedEndian, NumericFormat, DegammaFormat;
    hide SelectorX, SelectorY, SelectorZ, SelectorW, PixelPitch, ViewLast, LastSlice, LastMip;
    hide EncodedPitch, EncodedWidth, Pixels, PlusOne, DecodedDepth, TextureDepth;
  }

  lemma ObjectFields(w: seq<bv32>)
    requires |w| == TEXTURE_OBJECT_WORDS
    ensures var t := TextureIn(w);
            && t.dimension == w[0] && t.width == w[1] && t.height == w[2] && t.depth == w[3] && t.levels == w[4]
            && t.format == w[5] && t.aaMode == w[6] && t.use == w[7] && t.tileMode == w[12] && t.pitch == w[15]
            && t.firstMip == w[29] && t.numMips == w[30] && t.firstSlice == w[31] && t.numSlices == w[32]
            && t.componentMap == w[33]
    ensures BoundImage(w) == SwizzledImage(w[9], w[12], w[13])
    ensures BoundMipmap(w) == SwizzledMipmap(w[9], w[11], w[12], w[13])
  {
    hide SwizzledImage, SwizzledMipmap;
  }

  lemma BoundWordsDecode(w: seq<bv32>, address: bv32, unit: nat)
    requires |w| == TEXTURE_OBJECT_WORDS && Encode(TextureIn(w)).Some?
    requires BoundWords(true, address, unit, Prepared(w, Encode(TextureIn(w)).value)).Some?
    ensures unit < UNITS
    ensures Decode(BoundWords(true, address, unit, Prepared(w, Encode(TextureIn(w)).value)).value) ==
            Some(Meaning(TextureIn(w), BoundImage(w), BoundMipmap(w)))
  {
    var regs := Encode(TextureIn(w)).value;
    BoundWordsAre(w, regs, address, unit);
    assert Accepted(TextureIn(w)) by { hide Accepted; }
    hide *;
    DecodeEncoded(TextureIn(w), BoundImage(w), BoundMipmap(w));
  }

  lemma BoundWordsAre(w: seq<bv32>, regs: seq<bv32>, address: bv32, unit: nat)
    requires |w| == TEXTURE_OBJECT_WORDS && |regs| == 5
    ensures var r := BoundWords(true, address, unit, Prepared(w, regs));
            r.Some? ==> unit < UNITS && r.value == ResourceWords(regs, BoundImage(w), BoundMipmap(w))
  {
    var p := Prepared(w, regs);
    assert p[REGS..] == regs && p[9] == w[9] && p[11] == w[11] && p[12] == w[12] && p[13] == w[13];
    hide SwizzledImage, SwizzledMipmap, LowByteClear, ValidPointer, ResourceWords, Prepared;
  }

  /** `initialize_gx2_texture_registers` on a mapped texture object. */
  method InitialiseTextureRegisters(address: bv32, words: array<bv32>) returns (ok: bool)
    requires words.Length == TEXTURE_OBJECT_WORDS
    modifies words
    ensures ok <==> ValidPointer(address, 0xFFFF_FF63) && Accepted(TextureIn(old(words[..])))
    ensures words[..] ==
            if ok then Prepared(old(words[..]), Encode(TextureIn(old(words[..]))).value) else old(words[..])
  {
    hide Encode, ValidPointer, Accepted;
    if !ValidPointer(address, 0xFFFF_FF63) { return false; }
    var encoded := Encode(TextureIn(words[..]));
    if encoded.None? { return false; }
    ghost var w := words[..];
    for index := 0 to |encoded.value|
      invariant words[..REGS] == w[..REGS]
      invariant forall i :: 0 <= i < index ==> words[REGS + i] == encoded.value[i]
    {
      words[REGS + index] := encoded.value[index];
    }
    assert words[..] == words[..REGS] + words[REGS..];
    return true;
  }

  datatype TextureBinding = TextureBinding(address: bv32, registers: seq<bv32>)

  class Gx2 {
    var initialised: bool
    var pendingCommands: seq<Command>

    constructor ()
      ensures !initialised && pendingCommands == []
    {
      initialised, pendingCommands := false, [];
    }

    /** `set_gx2_texture` for one stage and its array of bindings. */
    method SetTexture(address: bv32, words: array<bv32>, unit: nat, stage: Stage,
                      bindings: array<Option<TextureBinding>>) returns (ok: bool)
      requires words.Length == TEXTURE_OBJECT_WORDS && bindings.Length == UNITS
      modifies this`pendingCommands, bindings
      ensures var ws := BoundWords(initialised, address, unit, words[..]);
              && (ok <==> ws.Some?)
              && (!ok ==> pendingCommands == old(pendingCommands) && bindings[..] == old(bindings[..]))
              && (ok ==> pendingCommands == old(pendingCommands) + WriteCommands(UnitRegister(stage, unit), ws.value) &&
                         unit < UNITS &&
                         bindings[..] == old(bindings[..])[unit := Some(TextureBinding(address, ws.value))])
    {
      hide ValidPointer, LowByteClear, ResourceWords, BoundImage, BoundMipmap, TextureBase;
      if !initialised || !ValidPointer(address, 0xFFFF_FF64) || unit >= UNITS || !LowByteClear(words[13]) {
        return false;
      }
      var registers := ResourceWords(words[REGS..], BoundImage(words[..]), BoundMipmap(words[..]));
      var first := UnitRegister(stage, unit);
      ghost var before := pendingCommands;
      for index := 0 to |registers|
        invariant pendingCommands == before + WriteCommands(first, registers)[..index]
        invariant bindings[..] == old(bindings[..])
      {
        pendingCommands := pendingCommands + [Write(ShaderResource, first + index * 4, registers[index])];
      }
      bindings[unit] := Some(TextureBinding(address, registers));
      return true;
    }
  }
}
