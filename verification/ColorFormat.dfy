/** Colour formats: nine fields packed into one 32-bit word, and the getters that take them out again. */
module ColorFormat {

  datatype Fields = Fields(video: bv32, plane: bv32, coplane: bv32, hFactor: bv32, vFactor: bv32,
                           bits: bv32, group: bv32, swapEnable: bv32, uniqueId: bv32)

  /** Each field fits the bits it is given. */
  predicate InRange(f: Fields) {
    f.video < 4 && f.plane < 8 && f.coplane < 4 && f.hFactor < 4 && f.vFactor < 4
    && f.bits < 1024 && f.group < 4 && f.swapEnable < 2 && f.uniqueId < 32
  }

  function Pack(f: Fields): bv32 {
    (f.video << 27) | (f.plane << 24) | (f.coplane << 22) | (f.hFactor << 20) | (f.vFactor << 18)
    | (f.bits << 8) | (f.group << 6) | (f.swapEnable << 5) | (f.uniqueId << 0)
  }

  function InterlacedMode(color: bv32): bv32 { (0x10000000 & color) >> 28 }
  function BlockMode(color: bv32): bv32 { (0x18000000 & color) >> 27 }
  function PlaneCount(color: bv32): bv32 { (0x07000000 & color) >> 24 }
  function UvCoplane(color: bv32): bv32 { (0x00C00000 & color) >> 22 }
  function HSubsample(color: bv32): bv32 { (0x00300000 & color) >> 20 }
  function VSubsample(color: bv32): bv32 { (0x000C0000 & color) >> 18 }
  function BitsPerPixel(color: bv32): bv32 { (0x0003FF00 & color) >> 8 }
  function ColorGroup(color: bv32): bv32 { (0x000000C0 & color) >> 6 }
  function SwapEnable(color: bv32): bv32 { (0x00000020 & color) >> 5 }
  function UniqueId(color: bv32): bv32 { (0x0000001F & color) >> 0 }
  function HwFormat(color: bv32): bv32 { (0x0000001F & color) >> 0 }

  function Unpack(color: bv32): Fields {
    Fields(BlockMode(color), PlaneCount(color), UvCoplane(color), HSubsample(color), VSubsample(color),
           BitsPerPixel(color), ColorGroup(color), SwapEnable(color), UniqueId(color))
  }

  /** The getters give back the fields exactly when every field is in range. */
  lemma RoundTrip(f: Fields)
    ensures Unpack(Pack(f)) == f <==> InRange(f)
  {
    GettersInRange(Pack(f));
    if InRange(f) {
      HighFields(f);
      LowFields(f);
    }
  }

  /** Where each field stands: the word is the sum of the fields by their weights. */
  lemma PackIsWeightedSum(f: Fields)
    requires InRange(f)
    ensures Pack(f) == 0x0800_0000 * f.video + 0x0100_0000 * f.plane + 0x40_0000 * f.coplane + 0x10_0000 * f.hFactor
                       + 0x4_0000 * f.vFactor + 0x100 * f.bits + 0x40 * f.group + 0x20 * f.swapEnable + f.uniqueId
  {
  }

  lemma HighFields(f: Fields)
    requires InRange(f)
    ensures BlockMode(Pack(f)) == f.video && PlaneCount(Pack(f)) == f.plane && UvCoplane(Pack(f)) == f.coplane
    ensures HSubsample(Pack(f)) == f.hFactor && VSubsample(Pack(f)) == f.vFactor
  {
  }

  lemma LowFields(f: Fields)
    requires InRange(f)
    ensures BitsPerPixel(Pack(f)) == f.bits && ColorGroup(Pack(f)) == f.group
    ensures SwapEnable(Pack(f)) == f.swapEnable && UniqueId(Pack(f)) == f.uniqueId
  {
  }

  lemma GettersInRange(color: bv32)
    ensures InRange(Unpack(color))
  {
  }

  /** The other way round: the fields of a word pack to that word exactly when its three top bits are clear. */
  lemma Repack(color: bv32)
    ensures Pack(Unpack(color)) == color <==> color < 0x2000_0000
  {
  }

  /** So two formats with fields in range share a word only if they are the same. */
  lemma PackIsInjective(f: Fields, g: Fields)
    requires InRange(f) && InRange(g)
    ensures Pack(f) == Pack(g) <==> f == g
  {
    hide Pack, Unpack;
    RoundTrip(f);
    RoundTrip(g);
  }

  /** The interlaced flag is the high bit of the block mode, and the hardware format is the unique id. */
  lemma SharedBits(color: bv32)
    ensures InterlacedMode(color) == BlockMode(color) >> 1
    ensures HwFormat(color) == Unpack(color).uniqueId
  {
  }
}
