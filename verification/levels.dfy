/** The level stack of a sector as the wall builder and the slope tools read it:
    floors, ceilings, light transfers and glows, each with its plane. */
module Levels {
  import opened Geometry
  import opened Colour

  datatype SectorLevelType = FloorLevel | CeilingLevel | LightLevel | GlowLevel

  /** Sub-kind of a light level: the upper and lower boundary of a "type 1"
      light band, or any other light transfer. */
  datatype LightLevelType = Type1 | Type1Bottom | OtherLightType

  /** The sector a level belongs to, with its bounding box on the map. */
  datatype SectorInfo = SectorInfo(id: nat, bbox: Box)

  /** One level. `id` stands for the level's object identity: two levels are
      the same level exactly when their ids agree. */
  datatype SectorLevel = SectorLevel(
    id: nat,
    levelType: SectorLevelType,
    lightType: LightLevelType,
    plane: Plane,
    brightnessBelow: int,
    colorBelow: PixelColor,
    extrafloor: bool,
    disableLighting: bool,
    splitSides: bool,
    sector: SectorInfo)

  /** The levels of one sector from the bottom up, and which of them are the
      sector's own floor and ceiling. */
  datatype SectorData = SectorData(lightLevels: seq<SectorLevel>, floor: SectorLevel, ceiling: SectorLevel)

  predicate SameLevel(a: SectorLevel, b: SectorLevel) { a.id == b.id }
}
