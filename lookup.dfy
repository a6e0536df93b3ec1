/** Per-element-type look-ups: the transverse half-size of an element's tube
    (`ele_x_scale`) and its colour (`ele_color`). Both start from a default,
    let the element's key select a value, and finally let the name
    `DU.DUM01` override whatever the key chose.

    Each is a method that runs the source's chain of `if`s, proved equal to a
    reference definition given as a table from key to value. */
module Lookup {
  import opened Lattice

  const DumpName: string := "DU.DUM01"

  /** `fac` in `ele_x_scale`: the shrink applied to magnet and cavity apertures. */
  const Fac: real := 0.7

  const DefaultScale: real := 0.1
  const DumpScale: real := 0.4

  /** The aperture each listed element type gets. */
  const Apertures: map<string, real> := map[
    "E_GUN" := 0.4,
    "PIPE" := 0.02,
    "DRIFT" := 0.03,
    "SBEND" := 0.1 * Fac,
    "QUADRUPOLE" := 0.1 * Fac,
    "SEXTUPOLE" := 0.15 * Fac,
    "LCAVITY" := 0.2 * Fac,
    "RFCAVITY" := 0.2 * Fac,
    "SOLENOID" := 0.1 * Fac,
    "WIGGLER" := 0.3]

  /** The aperture of `ele`: the dump's, else its type's, else the default. */
  function XScale(ele: Element): (sc: real)
    ensures sc > 0.0
  {
    if ele.name == DumpName then DumpScale
    else if ele.key in Apertures then Apertures[ele.key]
    else DefaultScale
  }

  /** `ele_x_scale`. */
  method EleXScale(ele: Element) returns (sc: real)
    ensures sc == XScale(ele)
    ensures ele.name == DumpName ==> sc == DumpScale
    ensures ele.name != DumpName && ele.key !in Apertures ==> sc == DefaultScale
  {
    sc := 0.1;
    var fac := 0.7;
    if ele.key == "E_GUN" {
      sc := 0.4;
    }
    if ele.key == "PIPE" {
      sc := 0.02;
    }
    if ele.key == "DRIFT" {
      sc := 0.03;
    }
    if ele.key == "SBEND" {
      sc := 0.1 * fac;
    }
    if ele.key == "QUADRUPOLE" {
      sc := 0.1 * fac;
    }
    if ele.key == "SEXTUPOLE" {
      sc := 0.15 * fac;
    }
    if ele.key == "LCAVITY" {
      sc := 0.2 * fac;
    }
    if ele.key == "RFCAVITY" {
      sc := 0.2 * fac;
    }
    if ele.key == "SOLENOID" {
      sc := 0.1 * fac;
    }
    if ele.key == "WIGGLER" {
      sc := 0.3;
    }
    if ele.name == "DU.DUM01" {
      sc := 0.4;
    }
  }

  /** An RGB colour with components in [0, 1]. */
  datatype Color = Color(r: real, g: real, b: real)

  predicate IsRgb(c: Color) {
    0.0 <= c.r <= 1.0 && 0.0 <= c.g <= 1.0 && 0.0 <= c.b <= 1.0
  }

  const Black: Color := Color(0.0, 0.0, 0.0)
  const Grey: Color := Color(0.5, 0.5, 0.5)

  /** The colour each listed element type gets. */
  const Colors: map<string, Color> := map[
    "E_GUN" := Grey,
    "SBEND" := Color(1.0, 0.0, 0.0),
    "QUADRUPOLE" := Color(0.0, 0.0, 1.0),
    "LCAVITY" := Color(0.0, 1.0, 0.0),
    "RFCAVITY" := Color(0.0, 1.0, 0.0),
    "SOLENOID" := Color(1.0, 0.0, 1.0),
    "SEXTUPOLE" := Color(1.0, 1.0, 0.0),
    "WIGGLER" := Color(1.0, 0.4, 0.0)]

  /** The colour of `ele`: the dump's, else its type's, else black. */
  function ColorOf(ele: Element): (c: Color)
    ensures IsRgb(c)
  {
    if ele.name == DumpName then Grey
    else if ele.key in Colors then Colors[ele.key]
    else Black
  }

  /** `ele_color`. */
  method EleColor(ele: Element) returns (color: Color)
    ensures color == ColorOf(ele)
    ensures ele.name == DumpName ==> color == Grey
    ensures ele.name != DumpName && ele.key !in Colors ==> color == Black
  {
    color := Color(0.0, 0.0, 0.0);
    if ele.key == "E_GUN" {
      color := Color(0.5, 0.5, 0.5);
    }
    if ele.key == "SBEND" {
      color := Color(1.0, 0.0, 0.0);
    }
    if ele.key == "QUADRUPOLE" {
      color := Color(0.0, 0.0, 1.0);
    }
    if ele.key == "LCAVITY" {
      color := Color(0.0, 1.0, 0.0);
    }
    if ele.key == "RFCAVITY" {
      color := Color(0.0, 1.0, 0.0);
    }
    if ele.key == "SOLENOID" {
      color := Color(1.0, 0.0, 1.0);
    }
    if ele.key == "SEXTUPOLE" {
      color := Color(1.0, 1.0, 0.0);
    }
    if ele.key == "WIGGLER" {
      color := Color(1.0, 0.4, 0.0);
    }
    if ele.name == "DU.DUM01" {
      color := Color(0.5, 0.5, 0.5);
    }
  }
}
