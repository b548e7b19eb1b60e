/** The platforms the picker is compiled for and the size presets chosen for
    each (`gridDimension`, `symbolSize`, `symbolCornerRadius`). The values are
    `CGFloat` points in the source; all of them are whole numbers. */
module Layout {

  /** The targets the source distinguishes with `#if os(...)`; `Other` is its `#else`. */
  datatype Platform = IOS | TvOS | MacOS | Other

  /** The three sizes of one grid cell. */
  datatype Preset = Preset(gridDimension: nat, symbolSize: nat, cornerRadius: nat)

  /** The sizes the source selects with `#if os(...)`. On every platform the
      glyph is smaller than its cell, and the corner radius that rounds the
      highlighted cell's background is under half the glyph's size, so under
      half the cell's height as well. */
  function PresetFor(p: Platform): (r: Preset)
    ensures 2 * r.cornerRadius < r.symbolSize < r.gridDimension
  {
    match p
    case IOS => Preset(64, 24, 8)
    case TvOS => Preset(128, 48, 12)
    case MacOS => Preset(30, 14, 4)
    case Other => Preset(48, 24, 8)
  }

  /** Every size of `a` is strictly larger than the same size of `b`. */
  predicate Larger(a: Preset, b: Preset) {
    a.gridDimension > b.gridDimension && a.symbolSize > b.symbolSize && a.cornerRadius > b.cornerRadius
  }

  /** Relative sizing order: TV above touch above desktop, and the fallback above desktop. */
  lemma PresetsOrdered()
    ensures Larger(PresetFor(TvOS), PresetFor(IOS))
    ensures Larger(PresetFor(IOS), PresetFor(MacOS))
    ensures Larger(PresetFor(Other), PresetFor(MacOS))
  {
  }
}
