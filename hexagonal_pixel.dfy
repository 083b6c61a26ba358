/**
 * Pixel addressing of a hexagonal pixel detector: a grid of regular
 * "pointy-top" hexagons whose flat-to-flat width is the pitch, arranged in
 * rows that are staggered by half a pitch.  Pixel (0,0) is the bottom-left
 * pixel and is centred on the origin of the local frame.
 *
 * Floating point is replaced by exact reals.  std::sqrt(3) is the parameter
 * `r3`, constrained by IsSqrt3, so that side = pitch / r3 is the edge length
 * of a hexagon and r3 / 3 = 1/sqrt(3) is the slope of its slanted edges.
 */
module HexagonalPixelDetectorModel {

  /** A pixel address as returned by getPixelIndex: (column, row). */
  datatype PixelIndex = PixelIndex(x: int, y: int)

  /** The x and y extent returned by getGridSize (its z component is always 0). */
  datatype GridSize = GridSize(x: real, y: real)

  /** r3 stands for std::sqrt(3). */
  predicate IsSqrt3(r3: real)
  {
    r3 > 0.0 && r3 * r3 == 3.0
  }

  /** A pixel pitch is a positive length. */
  predicate ValidPitch(pitch: real, r3: real)
  {
    pitch > 0.0 && IsSqrt3(r3)
  }

  function Floor(v: real): int
  {
    v.Floor
  }

  /** std::ceil */
  function Ceil(v: real): (c: int)
    ensures v <= c as real < v + 1.0
  {
    -((-v).Floor)
  }

  function Abs(v: real): real
  {
    if v < 0.0 then -v else v
  }

  /** C++ `a % b` for b > 0: the quotient is truncated toward zero, so the remainder takes the sign of `a`. */
  function CppRem(a: int, b: int): (r: int)
    requires b > 0
    ensures a == b * (if a >= 0 then a / b else -((-a) / b)) + r
    ensures -b < r < b
    ensures a >= 0 ==> r >= 0
    ensures a < 0 ==> r <= 0
  {
    if a >= 0 then a % b else -((-a) % b)
  }

  /** `x_modulus % 2 == 0` */
  predicate EvenModulus(xModulus: int)
  {
    CppRem(xModulus, 2) == 0
  }

  /** `x_modulus % 2 == 1 || x_modulus % 2 == -1` */
  predicate OddModulus(xModulus: int)
  {
    CppRem(xModulus, 2) == 1 || CppRem(xModulus, 2) == -1
  }

  /**
   * y_modulus: the position of posy within its period of 3 * side, in sixths.
   */
  function YModulus(posy: real, side: real): int
    requires side > 0.0
  {
    Floor((posy / (3.0 * side) - Floor(posy / (3.0 * side)) as real) * 6.0)
  }

  /**
   * The correction `switch(y_modulus % 6)` of getPixelIndex, applied to the
   * one-based first guess (xpixel, ypixel).  `leftColumn` is the column the
   * three branches that move the point into the row to the left take: the
   * source computes it as `xpixel - 1`.
   */
  function Correct(band: int, xModulus: int, posx: real, posy: real, side: real, minorRadius: real,
                   r3: real, xpixel: int, ypixel: int, leftColumn: int): PixelIndex
    requires side > 0.0
  {
    var period := Floor(posy / (3.0 * side)) as real;
    var slope := r3 / 3.0;
    match band
    case 0 =>
      if EvenModulus(xModulus) then
        var offset := 3.0 * side * period + slope * ((xModulus + 1) as real * minorRadius);
        if posy < -slope * posx + offset then PixelIndex(leftColumn, ypixel - 1) else PixelIndex(xpixel, ypixel)
      else if OddModulus(xModulus) then
        var offset := 3.0 * side * period - slope * (xModulus as real * minorRadius);
        if posy < slope * posx + offset then PixelIndex(xpixel, ypixel - 1) else PixelIndex(xpixel, ypixel)
      else
        PixelIndex(xpixel, ypixel)
    case 1 | 2 =>
      PixelIndex(xpixel, ypixel)
    case 3 =>
      if EvenModulus(xModulus) then
        var offset := side * (3.0 * period + 2.0) - slope * (minorRadius * (xModulus + 1) as real);
        if posy > slope * posx + offset then PixelIndex(leftColumn, ypixel + 1) else PixelIndex(xpixel, ypixel)
      else if OddModulus(xModulus) then
        var offset := side * (3.0 * period + 2.0) + slope * (minorRadius * xModulus as real);
        if posy > -slope * posx + offset then PixelIndex(xpixel, ypixel + 1) else PixelIndex(xpixel, ypixel)
      else
        PixelIndex(xpixel, ypixel)
    case 4 | 5 =>
      if EvenModulus(xModulus) then PixelIndex(leftColumn, ypixel + 1)
      else if OddModulus(xModulus) then PixelIndex(xpixel, ypixel + 1)
      else PixelIndex(xpixel, ypixel)
    case _ =>
      PixelIndex(-1, -1)
  }

  /**
   * getPixelIndex as written: shift the position, compute the buckets and the
   * first guess, correct it, and convert the one-based result to zero-based.
   * `fixedLeft` selects the corrected column of the left-moving branches
   * (see GetPixelIndexCorrected); the source is `fixedLeft == false`.
   */
  function PixelIndexOf(pitch: real, r3: real, x: real, y: real, fixedLeft: bool): PixelIndex
    requires ValidPitch(pitch, r3)
  {
    var side := pitch / r3;
    var minorRadius := pitch / 2.0;
    var posx := x + minorRadius;
    var posy := y + side;
    var xModulus := Floor(posx / minorRadius);
    var yModulus := YModulus(posy, side);
    var xpixel := Ceil(posx / pitch);
    var ypixel := 2 * Floor(posy / (3.0 * side)) + 1;
    var leftColumn := if fixedLeft then Floor(posx / pitch) else xpixel - 1;
    var p := Correct(CppRem(yModulus, 6), xModulus, posx, posy, side, minorRadius, r3, xpixel, ypixel, leftColumn);
    PixelIndex(p.x - 1, p.y - 1)
  }

  /** getPixelIndex exactly as the source computes it. */
  function GetPixelIndex(pitch: real, r3: real, x: real, y: real): PixelIndex
    requires ValidPitch(pitch, r3)
  {
    PixelIndexOf(pitch, r3, x, y, false)
  }

  /**
   * getPixelIndex with the column of the three left-moving branches taken as
   * floor(posx / pitch) instead of ceil(posx / pitch) - 1; the two differ
   * only when posx is an exact multiple of the pitch.
   */
  function GetPixelIndexCorrected(pitch: real, r3: real, x: real, y: real): PixelIndex
    requires ValidPitch(pitch, r3)
  {
    PixelIndexOf(pitch, r3, x, y, true)
  }

  /** getGridSize for nx columns and ny rows. */
  function GetGridSize(nx: nat, ny: nat, pitch: real, r3: real): GridSize
    requires ValidPitch(pitch, r3)
  {
    var xGridsize := nx as real * pitch;
    var side := pitch / r3;
    var yGridsize :=
      if ny % 2 == 1 then ((ny - 1) / 2) as real * 3.0 * side + 2.0 * side
      else if ny % 2 == 0 then (ny / 2) as real * 3.0 * side + side / 2.0
      else 0.0;
    GridSize(xGridsize, yGridsize)
  }

  // ---------------------------------------------------------------------------
  // Geometry of the pixels
  // ---------------------------------------------------------------------------

  /**
   * The closed pointy-top hexagon around a centre, at offset (dx, dy) from it:
   * at most mr to either side, and with |dy| + k * |dx| at most the distance
   * from the centre to the top corner.
   */
  predicate WithinHexagon(dx: real, dy: real, mr: real, corner: real, k: real)
  {
    Abs(dx) <= mr && Abs(dy) + k * Abs(dx) <= corner
  }

  /**
   * The closed hexagon of pixel p: its centre is p.x pitches to the right of
   * the origin (half a pitch more in odd rows) and p.y * 1.5 * side up; it
   * reaches pitch/2 to either side and `side` to its top and bottom corners.
   */
  predicate InHexagon(pitch: real, r3: real, x: real, y: real, p: PixelIndex)
    requires ValidPitch(pitch, r3)
  {
    WithinHexagon(x - CentreX(pitch, p), y - CentreY(pitch / r3, p), pitch / 2.0, pitch / r3, r3 / 3.0)
  }

  /** The centre of pixel p: p.x pitches to the right, half a pitch more in odd rows. */
  function CentreX(pitch: real, p: PixelIndex): real
  {
    p.x as real * pitch + (if p.y % 2 == 1 then pitch / 2.0 else 0.0)
  }

  /** The centre of pixel p: rows are 1.5 sides apart. */
  function CentreY(side: real, p: PixelIndex): real
  {
    p.y as real * 1.5 * side
  }

  // ---------------------------------------------------------------------------
  // The same algorithm in lattice units
  // ---------------------------------------------------------------------------
  // With u = posx / (pitch/2) and v = posy / (side/2) every slanted edge has
  // slope +1 or -1 and every offset of the switch is an integer, because
  // (sqrt(3)/3) * (pitch/2) == side/2.  The proofs below work in these units.

  function LatticeCorrect(band: int, xModulus: int, u: real, v: real, period: int,
                          xpixel: int, ypixel: int, leftColumn: int): PixelIndex
  {
    match band
    case 0 =>
      if EvenModulus(xModulus) then
        if v < -u + (6 * period + xModulus + 1) as real then PixelIndex(leftColumn, ypixel - 1) else PixelIndex(xpixel, ypixel)
      else if OddModulus(xModulus) then
        if v < u + (6 * period - xModulus) as real then PixelIndex(xpixel, ypixel - 1) else PixelIndex(xpixel, ypixel)
      else
        PixelIndex(xpixel, ypixel)
    case 1 | 2 =>
      PixelIndex(xpixel, ypixel)
    case 3 =>
      if EvenModulus(xModulus) then
        if v > u + (6 * period + 3 - xModulus) as real then PixelIndex(leftColumn, ypixel + 1) else PixelIndex(xpixel, ypixel)
      else if OddModulus(xModulus) then
        if v > -u + (6 * period + 4 + xModulus) as real then PixelIndex(xpixel, ypixel + 1) else PixelIndex(xpixel, ypixel)
      else
        PixelIndex(xpixel, ypixel)
    case 4 | 5 =>
      if EvenModulus(xModulus) then PixelIndex(leftColumn, ypixel + 1)
      else if OddModulus(xModulus) then PixelIndex(xpixel, ypixel + 1)
      else PixelIndex(xpixel, ypixel)
    case _ =>
      PixelIndex(-1, -1)
  }

  function LatticeIndex(u: real, v: real, fixedLeft: bool): PixelIndex
  {
    var p := LatticeCorrect(LatticeBand(v), Floor(u), u, v, Floor(v / 6.0), Ceil(u / 2.0), 2 * Floor(v / 6.0) + 1, LatticeLeft(u, fixedLeft));
    PixelIndex(p.x - 1, p.y - 1)
  }

  /** y_modulus % 6 in lattice units. */
  function LatticeBand(v: real): int
  {
    CppRem(Floor((v / 6.0 - Floor(v / 6.0) as real) * 6.0), 6)
  }

  /** The column of the left-moving branches in lattice units. */
  function LatticeLeft(u: real, fixedLeft: bool): int
  {
    if fixedLeft then Floor(u / 2.0) else Ceil(u / 2.0) - 1
  }

  /** Lattice coordinates of a local position. */
  function LatticeU(pitch: real, x: real): real
    requires pitch > 0.0
  {
    (x + pitch / 2.0) / (pitch / 2.0)
  }

  function LatticeV(pitch: real, r3: real, y: real): real
    requires ValidPitch(pitch, r3)
  {
    (y + pitch / r3) / ((pitch / r3) / 2.0)
  }

  /** The hexagon of pixel p in lattice units: |du| <= 1 and |du| + |dv| <= 2 around its centre. */
  predicate InLatticeHexagon(u: real, v: real, p: PixelIndex)
  {
    WithinHexagon(u - LatticeCentreU(p) as real, v - LatticeCentreV(p) as real, 1.0, 2.0, 1.0)
  }

  function LatticeCentreU(p: PixelIndex): int
  {
    2 * p.x + 1 + (if p.y % 2 == 1 then 1 else 0)
  }

  function LatticeCentreV(p: PixelIndex): int
  {
    3 * p.y + 2
  }

  /** side = pitch / sqrt(3) is positive, and (sqrt(3)/3) * (pitch/2) == side/2. */
  lemma SlopeTimesHalfPitch(pitch: real, r3: real)
    requires ValidPitch(pitch, r3)
    ensures pitch / r3 > 0.0
    ensures (r3 / 3.0) * (pitch / 2.0) == (pitch / r3) / 2.0
  {
  }

  lemma ScaleLess(a: real, b: real, h: real)
    requires h > 0.0
    ensures a * h < b * h <==> a < b
  {
  }

  lemma MulSubst(c: real, a: real, b: real)
    requires a == b
    ensures c * a == c * b
  {
  }

  /**
   * One slanted line of the switch in both units: with posx = u * mr,
   * posy = v * h, slope * mr == h and offset == c * h, the line
   * posy = -slope * posx + offset is the line v = -u + c.
   */
  lemma FallingLine(posx: real, posy: real, u: real, v: real, mr: real, h: real, slope: real, offset: real, c: real)
    requires h > 0.0 && slope * mr == h && posx == u * mr && posy == v * h && offset == c * h
    ensures posy < -slope * posx + offset <==> v < -u + c
    ensures posy > -slope * posx + offset <==> v > -u + c
  {
    calc {
      -slope * posx + offset;
      -u * (slope * mr) + c * h;
      { MulSubst(-u, slope * mr, h); }
      (-u + c) * h;
    }
    ScaleLess(v, -u + c, h);
    ScaleLess(-u + c, v, h);
  }

  /** The rising counterpart of FallingLine: posy = slope * posx + offset is v = u + c. */
  lemma RisingLine(posx: real, posy: real, u: real, v: real, mr: real, h: real, slope: real, offset: real, c: real)
    requires h > 0.0 && slope * mr == h && posx == u * mr && posy == v * h && offset == c * h
    ensures posy < slope * posx + offset <==> v < u + c
    ensures posy > slope * posx + offset <==> v > u + c
  {
    calc {
      slope * posx + offset;
      u * (slope * mr) + c * h;
      { MulSubst(u, slope * mr, h); }
      (u + c) * h;
    }
    ScaleLess(v, u + c, h);
    ScaleLess(u + c, v, h);
  }

  /** The shifted position in lattice units. */
  lemma LatticeCoordinates(pitch: real, r3: real, x: real, y: real)
    requires ValidPitch(pitch, r3)
    ensures var side := pitch / r3;
            var posx := x + pitch / 2.0;
            var posy := y + side;
            var u := LatticeU(pitch, x);
            var v := LatticeV(pitch, r3, y);
            && side > 0.0 && (r3 / 3.0) * (pitch / 2.0) == side / 2.0
            && posx == u * (pitch / 2.0) && posy == v * (side / 2.0)
            && posy / (3.0 * side) == v / 6.0 && posx / pitch == u / 2.0
  {
    SlopeTimesHalfPitch(pitch, r3);
  }

  /** The test of band 0 for even x_modulus, in lattice units. */
  lemma Band0EvenTest(pitch: real, r3: real, x: real, y: real)
    requires ValidPitch(pitch, r3)
    ensures
      var side := pitch / r3;
      var mr := pitch / 2.0;
      var k := r3 / 3.0;
      var u := LatticeU(pitch, x);
      var v := LatticeV(pitch, r3, y);
      var period := Floor(v / 6.0);
      var a := Floor(u);
      y + side < -k * (x + mr) + (3.0 * side * period as real + k * ((a + 1) as real * mr))
      <==> v < -u + (6 * period + a + 1) as real
  {
    var side := pitch / r3;
    var h := side / 2.0;
    var mr := pitch / 2.0;
    var k := r3 / 3.0;
    var u := LatticeU(pitch, x);
    var v := LatticeV(pitch, r3, y);
    var period := Floor(v / 6.0);
    var a := Floor(u);
    LatticeCoordinates(pitch, r3, x, y);
    assert 3.0 * side * period as real + k * ((a + 1) as real * mr) == (6 * period + a + 1) as real * h by {
      MulSubst((a + 1) as real, k * mr, h);
    }
    FallingLine(x + mr, y + side, u, v, mr, h, k, 3.0 * side * period as real + k * ((a + 1) as real * mr), (6 * period + a + 1) as real);
  }

  /** The test of band 0 for odd x_modulus, in lattice units. */
  lemma Band0OddTest(pitch: real, r3: real, x: real, y: real)
    requires ValidPitch(pitch, r3)
    ensures
      var side := pitch / r3;
      var mr := pitch / 2.0;
      var k := r3 / 3.0;
      var u := LatticeU(pitch, x);
      var v := LatticeV(pitch, r3, y);
      var period := Floor(v / 6.0);
      var a := Floor(u);
      y + side < k * (x + mr) + (3.0 * side * period as real - k * (a as real * mr))
      <==> v < u + (6 * period - a) as real
  {
    var side := pitch / r3;
    var h := side / 2.0;
    var mr := pitch / 2.0;
    var k := r3 / 3.0;
    var u := LatticeU(pitch, x);
    var v := LatticeV(pitch, r3, y);
    var period := Floor(v / 6.0);
    var a := Floor(u);
    LatticeCoordinates(pitch, r3, x, y);
    assert 3.0 * side * period as real - k * (a as real * mr) == (6 * period - a) as real * h by {
      MulSubst(a as real, k * mr, h);
    }
    RisingLine(x + mr, y + side, u, v, mr, h, k, 3.0 * side * period as real - k * (a as real * mr), (6 * period - a) as real);
  }

  /** The test of band 3 for even x_modulus, in lattice units. */
  lemma Band3EvenTest(pitch: real, r3: real, x: real, y: real)
    requires ValidPitch(pitch, r3)
    ensures
      var side := pitch / r3;
      var mr := pitch / 2.0;
      var k := r3 / 3.0;
      var u := LatticeU(pitch, x);
      var v := LatticeV(pitch, r3, y);
      var period := Floor(v / 6.0);
      var a := Floor(u);
      y + side > k * (x + mr) + (side * (3.0 * period as real + 2.0) - k * (mr * (a + 1) as real))
      <==> v > u + (6 * period + 3 - a) as real
  {
    var side := pitch / r3;
    var h := side / 2.0;
    var mr := pitch / 2.0;
    var k := r3 / 3.0;
    var u := LatticeU(pitch, x);
    var v := LatticeV(pitch, r3, y);
    var period := Floor(v / 6.0);
    var a := Floor(u);
    LatticeCoordinates(pitch, r3, x, y);
    assert side * (3.0 * period as real + 2.0) - k * (mr * (a + 1) as real) == (6 * period + 3 - a) as real * h by {
      MulSubst((a + 1) as real, k * mr, h);
    }
    RisingLine(x + mr, y + side, u, v, mr, h, k, side * (3.0 * period as real + 2.0) - k * (mr * (a + 1) as real), (6 * period + 3 - a) as real);
  }

  /** The test of band 3 for odd x_modulus, in lattice units. */
  lemma Band3OddTest(pitch: real, r3: real, x: real, y: real)
    requires ValidPitch(pitch, r3)
    ensures
      var side := pitch / r3;
      var mr := pitch / 2.0;
      var k := r3 / 3.0;
      var u := LatticeU(pitch, x);
      var v := LatticeV(pitch, r3, y);
      var period := Floor(v / 6.0);
      var a := Floor(u);
      y + side > -k * (x + mr) + (side * (3.0 * period as real + 2.0) + k * (mr * a as real))
      <==> v > -u + (6 * period + 4 + a) as real
  {
    var side := pitch / r3;
    var h := side / 2.0;
    var mr := pitch / 2.0;
    var k := r3 / 3.0;
    var u := LatticeU(pitch, x);
    var v := LatticeV(pitch, r3, y);
    var period := Floor(v / 6.0);
    var a := Floor(u);
    LatticeCoordinates(pitch, r3, x, y);
    assert side * (3.0 * period as real + 2.0) + k * (mr * a as real) == (6 * period + 4 + a) as real * h by {
      MulSubst(a as real, k * mr, h);
    }
    FallingLine(x + mr, y + side, u, v, mr, h, k, side * (3.0 * period as real + 2.0) + k * (mr * a as real), (6 * period + 4 + a) as real);
  }

  /** The switch of getPixelIndex is the switch of LatticeIndex, whatever the first guess. */
  lemma CorrectAgreement(pitch: real, r3: real, x: real, y: real, band: int, xpixel: int, ypixel: int, leftColumn: int)
    requires ValidPitch(pitch, r3)
    ensures pitch / r3 > 0.0
    ensures
      var side := pitch / r3;
      var u := LatticeU(pitch, x);
      var v := LatticeV(pitch, r3, y);
      Correct(band, Floor(u), x + pitch / 2.0, y + pitch / r3, pitch / r3, pitch / 2.0, r3, xpixel, ypixel, leftColumn)
      == LatticeCorrect(band, Floor(u), u, v, Floor(v / 6.0), xpixel, ypixel, leftColumn)
  {
    if band == 0 {
      CorrectAgreementBand0(pitch, r3, x, y, band, xpixel, ypixel, leftColumn);
    } else if band == 3 {
      CorrectAgreementBand3(pitch, r3, x, y, band, xpixel, ypixel, leftColumn);
    } else {
      var side := pitch / r3;
      assert side > 0.0 && Floor((y + side) / (3.0 * side)) == Floor(LatticeV(pitch, r3, y) / 6.0) by {
        LatticeCoordinates(pitch, r3, x, y);
      }
    }
  }

  lemma CorrectAgreementBand0(pitch: real, r3: real, x: real, y: real, band: int, xpixel: int, ypixel: int, leftColumn: int)
    requires ValidPitch(pitch, r3)
    requires band == 0
    ensures pitch / r3 > 0.0
    ensures
      var side := pitch / r3;
      var u := LatticeU(pitch, x);
      var v := LatticeV(pitch, r3, y);
      Correct(band, Floor(u), x + pitch / 2.0, y + pitch / r3, pitch / r3, pitch / 2.0, r3, xpixel, ypixel, leftColumn)
      == LatticeCorrect(band, Floor(u), u, v, Floor(v / 6.0), xpixel, ypixel, leftColumn)
  {
    ParityTests(Floor(LatticeU(pitch, x)));
    if EvenModulus(Floor(LatticeU(pitch, x))) {
      CorrectAgreementBand0Even(pitch, r3, x, y, band, xpixel, ypixel, leftColumn);
    } else {
      CorrectAgreementBand0Odd(pitch, r3, x, y, band, xpixel, ypixel, leftColumn);
    }
  }

  lemma CorrectAgreementBand0Even(pitch: real, r3: real, x: real, y: real, band: int, xpixel: int, ypixel: int, leftColumn: int)
    requires ValidPitch(pitch, r3)
    requires band == 0 && EvenModulus(Floor(LatticeU(pitch, x)))
    ensures pitch / r3 > 0.0
    ensures
      var side := pitch / r3;
      var u := LatticeU(pitch, x);
      var v := LatticeV(pitch, r3, y);
      Correct(band, Floor(u), x + pitch / 2.0, y + pitch / r3, pitch / r3, pitch / 2.0, r3, xpixel, ypixel, leftColumn)
      == LatticeCorrect(band, Floor(u), u, v, Floor(v / 6.0), xpixel, ypixel, leftColumn)
  {
    var side := pitch / r3;
    assert side > 0.0 && Floor((y + side) / (3.0 * side)) == Floor(LatticeV(pitch, r3, y) / 6.0) by {
      LatticeCoordinates(pitch, r3, x, y);
    }
    Band0EvenTest(pitch, r3, x, y);
  }

  lemma CorrectAgreementBand0Odd(pitch: real, r3: real, x: real, y: real, band: int, xpixel: int, ypixel: int, leftColumn: int)
    requires ValidPitch(pitch, r3)
    requires band == 0 && OddModulus(Floor(LatticeU(pitch, x)))
    ensures pitch / r3 > 0.0
    ensures
      var side := pitch / r3;
      var u := LatticeU(pitch, x);
      var v := LatticeV(pitch, r3, y);
      Correct(band, Floor(u), x + pitch / 2.0, y + pitch / r3, pitch / r3, pitch / 2.0, r3, xpixel, ypixel, leftColumn)
      == LatticeCorrect(band, Floor(u), u, v, Floor(v / 6.0), xpixel, ypixel, leftColumn)
  {
    var side := pitch / r3;
    assert side > 0.0 && Floor((y + side) / (3.0 * side)) == Floor(LatticeV(pitch, r3, y) / 6.0) by {
      LatticeCoordinates(pitch, r3, x, y);
    }
    Band0OddTest(pitch, r3, x, y);
  }

  lemma CorrectAgreementBand3(pitch: real, r3: real, x: real, y: real, band: int, xpixel: int, ypixel: int, leftColumn: int)
    requires ValidPitch(pitch, r3)
    requires band == 3
    ensures pitch / r3 > 0.0
    ensures
      var side := pitch / r3;
      var u := LatticeU(pitch, x);
      var v := LatticeV(pitch, r3, y);
      Correct(band, Floor(u), x + pitch / 2.0, y + pitch / r3, pitch / r3, pitch / 2.0, r3, xpixel, ypixel, leftColumn)
      == LatticeCorrect(band, Floor(u), u, v, Floor(v / 6.0), xpixel, ypixel, leftColumn)
  {
    ParityTests(Floor(LatticeU(pitch, x)));
    if EvenModulus(Floor(LatticeU(pitch, x))) {
      CorrectAgreementBand3Even(pitch, r3, x, y, band, xpixel, ypixel, leftColumn);
    } else {
      CorrectAgreementBand3Odd(pitch, r3, x, y, band, xpixel, ypixel, leftColumn);
    }
  }

  lemma CorrectAgreementBand3Even(pitch: real, r3: real, x: real, y: real, band: int, xpixel: int, ypixel: int, leftColumn: int)
    requires ValidPitch(pitch, r3)
    requires band == 3 && EvenModulus(Floor(LatticeU(pitch, x)))
    ensures pitch / r3 > 0.0
    ensures
      var side := pitch / r3;
      var u := LatticeU(pitch, x);
      var v := LatticeV(pitch, r3, y);
      Correct(band, Floor(u), x + pitch / 2.0, y + pitch / r3, pitch / r3, pitch / 2.0, r3, xpixel, ypixel, leftColumn)
      == LatticeCorrect(band, Floor(u), u, v, Floor(v / 6.0), xpixel, ypixel, leftColumn)
  {
    var side := pitch / r3;
    assert side > 0.0 && Floor((y + side) / (3.0 * side)) == Floor(LatticeV(pitch, r3, y) / 6.0) by {
      LatticeCoordinates(pitch, r3, x, y);
    }
    Band3EvenTest(pitch, r3, x, y);
  }

  lemma CorrectAgreementBand3Odd(pitch: real, r3: real, x: real, y: real, band: int, xpixel: int, ypixel: int, leftColumn: int)
    requires ValidPitch(pitch, r3)
    requires band == 3 && OddModulus(Floor(LatticeU(pitch, x)))
    ensures pitch / r3 > 0.0
    ensures
      var side := pitch / r3;
      var u := LatticeU(pitch, x);
      var v := LatticeV(pitch, r3, y);
      Correct(band, Floor(u), x + pitch / 2.0, y + pitch / r3, pitch / r3, pitch / 2.0, r3, xpixel, ypixel, leftColumn)
      == LatticeCorrect(band, Floor(u), u, v, Floor(v / 6.0), xpixel, ypixel, leftColumn)
  {
    var side := pitch / r3;
    assert side > 0.0 && Floor((y + side) / (3.0 * side)) == Floor(LatticeV(pitch, r3, y) / 6.0) by {
      LatticeCoordinates(pitch, r3, x, y);
    }
    Band3OddTest(pitch, r3, x, y);
  }

  lemma YModulusOfRatio(posy: real, side: real, w: real)
    requires side > 0.0 && posy / (3.0 * side) == w
    ensures Floor(posy / (3.0 * side)) == Floor(w)
    ensures YModulus(posy, side) == Floor((w - Floor(w) as real) * 6.0)
  {
  }

  /** getPixelIndex computes LatticeIndex at the lattice coordinates of the position. */
  lemma LatticeAgreement(pitch: real, r3: real, x: real, y: real, fixedLeft: bool)
    requires ValidPitch(pitch, r3)
    ensures PixelIndexOf(pitch, r3, x, y, fixedLeft) == LatticeIndex(LatticeU(pitch, x), LatticeV(pitch, r3, y), fixedLeft)
  {
    var u := LatticeU(pitch, x);
    var v := LatticeV(pitch, r3, y);
    PixelIndexOfSteps(pitch, r3, x, y, fixedLeft);
    CorrectAgreement(pitch, r3, x, y, LatticeBand(v), Ceil(u / 2.0), 2 * Floor(v / 6.0) + 1, LatticeLeft(u, fixedLeft));
  }

  lemma PixelIndexOfSteps(pitch: real, r3: real, x: real, y: real, fixedLeft: bool)
    requires ValidPitch(pitch, r3)
    ensures pitch / r3 > 0.0
    ensures
      var u := LatticeU(pitch, x);
      var v := LatticeV(pitch, r3, y);
      var p := Correct(LatticeBand(v), Floor(u), x + pitch / 2.0, y + pitch / r3, pitch / r3, pitch / 2.0, r3,
                       Ceil(u / 2.0), 2 * Floor(v / 6.0) + 1, LatticeLeft(u, fixedLeft));
      PixelIndexOf(pitch, r3, x, y, fixedLeft) == PixelIndex(p.x - 1, p.y - 1)
  {
    var side := pitch / r3;
    var posx := x + pitch / 2.0;
    var posy := y + side;
    var u := LatticeU(pitch, x);
    var v := LatticeV(pitch, r3, y);
    assert side > 0.0 && posy / (3.0 * side) == v / 6.0 && posx / pitch == u / 2.0 by {
      LatticeCoordinates(pitch, r3, x, y);
    }
    YModulusOfRatio(posy, side, v / 6.0);
  }


  // ---------------------------------------------------------------------------
  // The buckets in lattice units
  // ---------------------------------------------------------------------------

  /** The parity tests of the switch are exhaustive: x_modulus % 2 is 0 exactly for even x_modulus, and 1 or -1 otherwise. */
  lemma ParityTests(a: int)
    ensures EvenModulus(a) <==> a % 2 == 0
    ensures OddModulus(a) <==> a % 2 == 1
    ensures EvenModulus(a) != OddModulus(a)
  {
    if a < 0 {
      assert (-a) % 2 == 0 <==> a % 2 == 0;
    }
  }

  /** y_modulus always lies in 0..5, so `y_modulus % 6` is y_modulus and the default branch is never taken. */
  lemma BandOf(v: real)
    ensures 0 <= LatticeBand(v) < 6
    ensures LatticeBand(v) == Floor(v - 6.0 * Floor(v / 6.0) as real)
  {
    var q := Floor(v / 6.0);
    assert (v / 6.0 - q as real) * 6.0 == v - 6.0 * q as real;
  }

  /** floor and ceil of u / 2 in terms of a = floor(u). */
  lemma HalfColumns(u: real)
    ensures var a := Floor(u);
      && (a % 2 == 0 ==> Floor(u / 2.0) == a / 2 && Ceil(u / 2.0) == (if u == a as real then a / 2 else a / 2 + 1))
      && (a % 2 == 1 ==> Floor(u / 2.0) == (a - 1) / 2 && Ceil(u / 2.0) == (a + 1) / 2)
  {
    var a := Floor(u);
    var k := a / 2;
    assert a == 2 * k + a % 2;
  }

  /** In bands 1 and 2 the first guess stands and contains the position. */
  lemma ContainedMiddle(u: real, v: real)
    requires LatticeBand(v) == 1 || LatticeBand(v) == 2
    ensures InLatticeHexagon(u, v, LatticeIndex(u, v, true))
  {
    BandOf(v);
    HalfColumns(u);
    ParityTests(Floor(u));
  }

  /** Band 0: the position is either in the first guess or in the row below it. */
  lemma ContainedBottom(u: real, v: real)
    requires LatticeBand(v) == 0
    ensures InLatticeHexagon(u, v, LatticeIndex(u, v, true))
  {
    BandOf(v);
    HalfColumns(u);
    ParityTests(Floor(u));
  }

  /** Band 3: the position is either in the first guess or in the row above it. */
  lemma ContainedUpper(u: real, v: real)
    requires LatticeBand(v) == 3
    ensures InLatticeHexagon(u, v, LatticeIndex(u, v, true))
  {
    BandOf(v);
    HalfColumns(u);
    ParityTests(Floor(u));
  }

  /** Bands 4 and 5: the position is in the row above the first guess. */
  lemma ContainedTop(u: real, v: real)
    requires LatticeBand(v) == 4 || LatticeBand(v) == 5
    ensures InLatticeHexagon(u, v, LatticeIndex(u, v, true))
  {
    BandOf(v);
    HalfColumns(u);
    ParityTests(Floor(u));
  }

  /** Every position lies in the hexagon of the pixel the corrected algorithm returns. */
  lemma LatticeContainment(u: real, v: real)
    ensures InLatticeHexagon(u, v, LatticeIndex(u, v, true))
  {
    BandOf(v);
    var b := LatticeBand(v);
    if b == 0 {
      ContainedBottom(u, v);
    } else if b == 1 || b == 2 {
      ContainedMiddle(u, v);
    } else if b == 3 {
      ContainedUpper(u, v);
    } else {
      ContainedTop(u, v);
    }
  }

  /** The corrected and the as-written column differ exactly when u / 2 is an integer. */
  lemma LeftColumns(u: real)
    ensures LatticeLeft(u, false) == LatticeLeft(u, true) <==> Floor(u / 2.0) as real != u / 2.0
    ensures LatticeLeft(u, false) == LatticeLeft(u, true) || LatticeLeft(u, false) == LatticeLeft(u, true) - 1
  {
  }

  /**
   * Changing the column of the left-moving branches only changes the result
   * when one of them is taken, that is when the result leaves the row of the
   * first guess with an even x_modulus.
   */
  lemma LeftBranches(band: int, xModulus: int, u: real, v: real, period: int, xpixel: int, ypixel: int, left: int)
    requires 0 <= band < 6
    ensures
      var p := LatticeCorrect(band, xModulus, u, v, period, xpixel, ypixel, left);
      var q := LatticeCorrect(band, xModulus, u, v, period, xpixel, ypixel, left - 1);
      && (q != p <==> EvenModulus(xModulus) && p.y != ypixel)
      && (q != p ==> q == PixelIndex(p.x - 1, p.y))
  {
  }

  /**
   * The as-written algorithm returns the corrected pixel, except when u / 2 is
   * an integer and the position is not in the row of the first guess: then it
   * returns the pixel to the left of the corrected one.
   */
  lemma LatticeAsWritten(u: real, v: real)
    ensures LatticeIndex(u, v, false) != LatticeIndex(u, v, true)
            <==> Floor(u / 2.0) as real == u / 2.0 && LatticeIndex(u, v, true).y != 2 * Floor(v / 6.0)
    ensures LatticeIndex(u, v, false) != LatticeIndex(u, v, true)
            ==> LatticeIndex(u, v, false) == PixelIndex(LatticeIndex(u, v, true).x - 1, LatticeIndex(u, v, true).y)
  {
    BandOf(v);
    LeftColumns(u);
    HalfColumns(u);
    ParityTests(Floor(u));
    LeftBranches(LatticeBand(v), Floor(u), u, v, Floor(v / 6.0), Ceil(u / 2.0), 2 * Floor(v / 6.0) + 1, LatticeLeft(u, true));
  }

  /** Moving two half-pitches to the right moves the result one column to the right. */
  lemma LatticeShiftColumn(u: real, v: real, fixedLeft: bool)
    ensures LatticeIndex(u + 2.0, v, fixedLeft) == PixelIndex(LatticeIndex(u, v, fixedLeft).x + 1, LatticeIndex(u, v, fixedLeft).y)
  {
    var a := Floor(u);
    assert Floor(u + 2.0) == a + 2;
    assert (u + 2.0) / 2.0 == u / 2.0 + 1.0;
    assert Ceil((u + 2.0) / 2.0) == Ceil(u / 2.0) + 1;
    assert LatticeLeft(u + 2.0, fixedLeft) == LatticeLeft(u, fixedLeft) + 1;
    ParityTests(a);
    ParityTests(a + 2);
    BandOf(v);
    var q := Floor(v / 6.0);
    CorrectShiftColumn(LatticeBand(v), a, u, v, q, Ceil(u / 2.0), 2 * q + 1, LatticeLeft(u, fixedLeft));
  }

  /** The switch, two half-pitches to the right: the same branch, one column further. */
  lemma CorrectShiftColumn(band: int, xModulus: int, u: real, v: real, period: int, xpixel: int, ypixel: int, left: int)
    requires 0 <= band < 6
    requires EvenModulus(xModulus) == EvenModulus(xModulus + 2) && OddModulus(xModulus) == OddModulus(xModulus + 2)
    ensures
      var p := LatticeCorrect(band, xModulus, u, v, period, xpixel, ypixel, left);
      LatticeCorrect(band, xModulus + 2, u + 2.0, v, period, xpixel + 1, ypixel, left + 1) == PixelIndex(p.x + 1, p.y)
  {
  }

  /** Moving six half-sides up moves the result two rows up. */
  lemma LatticeShiftRow(u: real, v: real, fixedLeft: bool)
    ensures LatticeIndex(u, v + 6.0, fixedLeft) == PixelIndex(LatticeIndex(u, v, fixedLeft).x, LatticeIndex(u, v, fixedLeft).y + 2)
  {
    var q := Floor(v / 6.0);
    assert (v + 6.0) / 6.0 == v / 6.0 + 1.0;
    assert Floor((v + 6.0) / 6.0) == q + 1;
    BandOf(v);
    BandOf(v + 6.0);
    assert LatticeBand(v + 6.0) == LatticeBand(v);
    CorrectShiftRow(LatticeBand(v), Floor(u), u, v, q, Ceil(u / 2.0), 2 * q + 1, LatticeLeft(u, fixedLeft));
  }

  /** The switch, six half-sides up: the same branch, two rows further. */
  lemma CorrectShiftRow(band: int, xModulus: int, u: real, v: real, period: int, xpixel: int, ypixel: int, left: int)
    requires 0 <= band < 6
    ensures
      var p := LatticeCorrect(band, xModulus, u, v, period, xpixel, ypixel, left);
      LatticeCorrect(band, xModulus, u, v + 6.0, period + 1, xpixel, ypixel + 2, left) == PixelIndex(p.x, p.y + 2)
  {
  }

  // ---------------------------------------------------------------------------
  // Back in the local frame
  // ---------------------------------------------------------------------------

  lemma ScaleAtMost(a: real, b: real, h: real)
    requires h > 0.0
    ensures a * h <= b * h <==> a <= b
  {
  }

  lemma AbsScale(d: real, m: real)
    requires m > 0.0
    ensures Abs(d * m) == Abs(d) * m
  {
  }

  /** The two conditions of a hexagon, scaled by mr horizontally and by h vertically. */
  lemma HexagonScaling(dx: real, dy: real, du: real, dv: real, mr: real, h: real, k: real)
    requires mr > 0.0 && h > 0.0 && k * mr == h && dx == du * mr && dy == dv * h
    ensures WithinHexagon(dx, dy, mr, 2.0 * h, k) <==> WithinHexagon(du, dv, 1.0, 2.0, 1.0)
  {
    AbsScale(du, mr);
    AbsScale(dv, h);
    assert Abs(dx) == Abs(du) * mr;
    assert Abs(dy) == Abs(dv) * h;
    ScaleAtMost(Abs(du), 1.0, mr);
    assert Abs(dx) <= mr <==> Abs(du) <= 1.0;
    assert k * Abs(dx) == Abs(du) * h by {
      assert k * (Abs(du) * mr) == Abs(du) * (k * mr);
    }
    assert Abs(dy) + k * Abs(dx) == (Abs(du) + Abs(dv)) * h;
    ScaleAtMost(Abs(du) + Abs(dv), 2.0, h);
  }

  /** The centre of a pixel, shifted like the position, in lattice units. */
  lemma CentreInLatticeUnits(pitch: real, side: real, p: PixelIndex)
    ensures CentreX(pitch, p) + pitch / 2.0 == LatticeCentreU(p) as real * (pitch / 2.0)
    ensures CentreY(side, p) + side == LatticeCentreV(p) as real * (side / 2.0)
  {
  }

  lemma SubScaled(a: real, b: real, m: real)
    ensures a * m - b * m == (a - b) * m
  {
  }

  /** HexagonScaling for a position and a centre given in both units. */
  lemma HexagonScalingAt(x: real, cx: real, u: real, cu: real, y: real, cy: real, v: real, cv: real,
                         mr: real, h: real, side: real, k: real)
    requires mr > 0.0 && h > 0.0 && k * mr == h && side == 2.0 * h
    requires x + mr == u * mr && cx + mr == cu * mr && y + side == v * h && cy + side == cv * h
    ensures WithinHexagon(x - cx, y - cy, mr, side, k) <==> WithinHexagon(u - cu, v - cv, 1.0, 2.0, 1.0)
  {
    SubScaled(u, cu, mr);
    SubScaled(v, cv, h);
    HexagonScaling(x - cx, y - cy, u - cu, v - cv, mr, h, k);
  }

  /** A pixel's hexagon in the local frame is its hexagon in lattice units. */
  lemma HexagonInLatticeUnits(pitch: real, r3: real, x: real, y: real, p: PixelIndex)
    requires ValidPitch(pitch, r3)
    ensures InHexagon(pitch, r3, x, y, p) <==> InLatticeHexagon(LatticeU(pitch, x), LatticeV(pitch, r3, y), p)
  {
    var side := pitch / r3;
    var u := LatticeU(pitch, x);
    var v := LatticeV(pitch, r3, y);
    assert side > 0.0 && (r3 / 3.0) * (pitch / 2.0) == side / 2.0 && x + pitch / 2.0 == u * (pitch / 2.0) && y + side == v * (side / 2.0) by {
      LatticeCoordinates(pitch, r3, x, y);
    }
    CentreInLatticeUnits(pitch, side, p);
    HexagonScalingAt(x, CentreX(pitch, p), u, LatticeCentreU(p) as real, y, CentreY(side, p), v, LatticeCentreV(p) as real,
                     pitch / 2.0, side / 2.0, side, r3 / 3.0);
  }

  /** The centre of every pixel is resolved to that pixel by the corrected algorithm, and to its left neighbour in odd rows as written. */
  lemma LatticeCentreIndex(p: PixelIndex)
    ensures LatticeIndex(LatticeCentreU(p) as real, LatticeCentreV(p) as real, true) == p
    ensures LatticeIndex(LatticeCentreU(p) as real, LatticeCentreV(p) as real, false)
            == if p.y % 2 == 1 then PixelIndex(p.x - 1, p.y) else p
  {
    var u := LatticeCentreU(p) as real;
    var v := LatticeCentreV(p) as real;
    var m := p.y / 2;
    assert p.y == 2 * m + p.y % 2;
    assert Floor(v / 6.0) == m;
    BandOf(v);
    HalfColumns(u);
    ParityTests(Floor(u));
  }

  // ---------------------------------------------------------------------------
  // Properties of getPixelIndex
  // ---------------------------------------------------------------------------

  /** y_modulus lies in 0..5, so `y_modulus % 6` is y_modulus itself and the default branch is unreachable. */
  lemma YModulusRange(posy: real, side: real)
    requires side > 0.0
    ensures 0 <= YModulus(posy, side) < 6
    ensures CppRem(YModulus(posy, side), 6) == YModulus(posy, side)
  {
  }

  /**
   * The switch only ever keeps the first guess or moves to a neighbour:
   * bands 1 and 2 keep it, band 0 can only go one row down, band 3 one row
   * up, bands 4 and 5 always go one row up, and the column is the first
   * guess or the left column (the latter only for an even x_modulus).  A
   * position exactly on a slanted line gets no correction.  Any other band
   * falls to the default (-1, -1), which the shift to zero-based indices
   * would turn into (-2, -2).
   */
  lemma CorrectionRules(band: int, xModulus: int, posx: real, posy: real, side: real, minorRadius: real,
                        r3: real, xpixel: int, ypixel: int, leftColumn: int)
    requires side > 0.0
    ensures
      var p := Correct(band, xModulus, posx, posy, side, minorRadius, r3, xpixel, ypixel, leftColumn);
      var period := Floor(posy / (3.0 * side)) as real;
      var slope := r3 / 3.0;
      && (band == 1 || band == 2 ==> p == PixelIndex(xpixel, ypixel))
      && (band == 0 ==> p.y == ypixel || p.y == ypixel - 1)
      && (band == 3 ==> p.y == ypixel || p.y == ypixel + 1)
      && (band == 4 || band == 5 ==> p.y == ypixel + 1)
      && ((band == 4 || band == 5) && EvenModulus(xModulus) ==> p == PixelIndex(leftColumn, ypixel + 1))
      && ((band == 4 || band == 5) && OddModulus(xModulus) ==> p == PixelIndex(xpixel, ypixel + 1))
      && (0 <= band < 6 ==> p.x == xpixel || (p.x == leftColumn && EvenModulus(xModulus)))
      && (!(0 <= band < 6) ==> p == PixelIndex(-1, -1))
      && (band == 0 && EvenModulus(xModulus)
          && posy == -slope * posx + (3.0 * side * period + slope * ((xModulus + 1) as real * minorRadius))
          ==> p == PixelIndex(xpixel, ypixel))
      && (band == 0 && OddModulus(xModulus)
          && posy == slope * posx + (3.0 * side * period - slope * (xModulus as real * minorRadius))
          ==> p == PixelIndex(xpixel, ypixel))
      && (band == 3 && EvenModulus(xModulus)
          && posy == slope * posx + (side * (3.0 * period + 2.0) - slope * (minorRadius * (xModulus + 1) as real))
          ==> p == PixelIndex(xpixel, ypixel))
      && (band == 3 && OddModulus(xModulus)
          && posy == -slope * posx + (side * (3.0 * period + 2.0) + slope * (minorRadius * xModulus as real))
          ==> p == PixelIndex(xpixel, ypixel))
  {
  }

  /**
   * With C = ceil(posx / pitch) and F = floor(posy / (3 * side)), the column
   * of getPixelIndex is C - 1 or C - 2 and its row is 2F - 1, 2F or 2F + 1.
   */
  lemma GetPixelIndexCandidates(pitch: real, r3: real, x: real, y: real)
    requires ValidPitch(pitch, r3)
    ensures
      var side := pitch / r3;
      var c := Ceil((x + pitch / 2.0) / pitch);
      var f := Floor((y + side) / (3.0 * side));
      var p := GetPixelIndex(pitch, r3, x, y);
      && (p.x == c - 1 || p.x == c - 2)
      && (p.y == 2 * f - 1 || p.y == 2 * f || p.y == 2 * f + 1)
  {
    var side := pitch / r3;
    var minorRadius := pitch / 2.0;
    var posx := x + minorRadius;
    var posy := y + side;
    var xpixel := Ceil(posx / pitch);
    var ypixel := 2 * Floor(posy / (3.0 * side)) + 1;
    assert side > 0.0 by {
      SlopeTimesHalfPitch(pitch, r3);
    }
    YModulusRange(posy, side);
    CorrectionRules(CppRem(YModulus(posy, side), 6), Floor(posx / minorRadius), posx, posy, side, minorRadius, r3,
                    xpixel, ypixel, xpixel - 1);
  }

  /** The corrected algorithm returns a pixel whose hexagon contains the position: the switch leaves no gaps. */
  lemma GetPixelIndexCorrectedContains(pitch: real, r3: real, x: real, y: real)
    requires ValidPitch(pitch, r3)
    ensures InHexagon(pitch, r3, x, y, GetPixelIndexCorrected(pitch, r3, x, y))
  {
    var u := LatticeU(pitch, x);
    var v := LatticeV(pitch, r3, y);
    LatticeAgreement(pitch, r3, x, y, true);
    LatticeContainment(u, v);
    HexagonInLatticeUnits(pitch, r3, x, y, LatticeIndex(u, v, true));
  }

  /**
   * getPixelIndex as written differs from the corrected algorithm exactly
   * when posx is a multiple of the pitch and the position is resolved away
   * from the row of the first guess; it then returns the left neighbour of
   * the pixel that contains the position.
   */
  lemma GetPixelIndexVersusCorrected(pitch: real, r3: real, x: real, y: real)
    requires ValidPitch(pitch, r3)
    ensures
      var side := pitch / r3;
      var w := (x + pitch / 2.0) / pitch;
      var c := GetPixelIndexCorrected(pitch, r3, x, y);
      && (GetPixelIndex(pitch, r3, x, y) != c
          <==> Floor(w) as real == w && c.y != 2 * Floor((y + side) / (3.0 * side)))
      && (GetPixelIndex(pitch, r3, x, y) != c ==> GetPixelIndex(pitch, r3, x, y) == PixelIndex(c.x - 1, c.y))
  {
    var side := pitch / r3;
    var u := LatticeU(pitch, x);
    var v := LatticeV(pitch, r3, y);
    assert (x + pitch / 2.0) / pitch == u / 2.0 && (y + side) / (3.0 * side) == v / 6.0 by {
      LatticeCoordinates(pitch, r3, x, y);
    }
    LatticeAgreement(pitch, r3, x, y, true);
    LatticeAgreement(pitch, r3, x, y, false);
    LatticeAsWritten(u, v);
  }

  /** As written, getPixelIndex contains the position whenever posx is not a multiple of the pitch. */
  lemma GetPixelIndexContains(pitch: real, r3: real, x: real, y: real)
    requires ValidPitch(pitch, r3)
    requires var w := (x + pitch / 2.0) / pitch; Floor(w) as real != w
    ensures InHexagon(pitch, r3, x, y, GetPixelIndex(pitch, r3, x, y))
  {
    GetPixelIndexVersusCorrected(pitch, r3, x, y);
    GetPixelIndexCorrectedContains(pitch, r3, x, y);
  }

  /** Lattice coordinates of a pixel centre. */
  lemma CentreCoordinates(pitch: real, r3: real, p: PixelIndex)
    requires ValidPitch(pitch, r3)
    ensures LatticeU(pitch, CentreX(pitch, p)) == LatticeCentreU(p) as real
    ensures LatticeV(pitch, r3, CentreY(pitch / r3, p)) == LatticeCentreV(p) as real
  {
    var side := pitch / r3;
    assert side > 0.0 by {
      SlopeTimesHalfPitch(pitch, r3);
    }
    CentreInLatticeUnits(pitch, side, p);
  }

  /**
   * The corrected algorithm maps the centre of every pixel to that pixel;
   * as written, getPixelIndex maps the centre of every pixel in an odd row to
   * its left neighbour.
   */
  lemma GetPixelIndexOfCentre(pitch: real, r3: real, p: PixelIndex)
    requires ValidPitch(pitch, r3)
    ensures GetPixelIndexCorrected(pitch, r3, CentreX(pitch, p), CentreY(pitch / r3, p)) == p
    ensures GetPixelIndex(pitch, r3, CentreX(pitch, p), CentreY(pitch / r3, p))
            == if p.y % 2 == 1 then PixelIndex(p.x - 1, p.y) else p
  {
    CentreCoordinates(pitch, r3, p);
    LatticeAgreement(pitch, r3, CentreX(pitch, p), CentreY(pitch / r3, p), true);
    LatticeAgreement(pitch, r3, CentreX(pitch, p), CentreY(pitch / r3, p), false);
    LatticeCentreIndex(p);
  }

  /**
   * The smallest instance: the centre (pitch/2, 1.5 * side) of pixel (0,1)
   * is reported as pixel (-1,1), whose hexagon does not contain it.
   */
  lemma GetPixelIndexCounterexample(pitch: real, r3: real)
    requires ValidPitch(pitch, r3)
    ensures GetPixelIndex(pitch, r3, pitch / 2.0, 1.5 * (pitch / r3)) == PixelIndex(-1, 1)
    ensures !InHexagon(pitch, r3, pitch / 2.0, 1.5 * (pitch / r3), PixelIndex(-1, 1))
    ensures GetPixelIndexCorrected(pitch, r3, pitch / 2.0, 1.5 * (pitch / r3)) == PixelIndex(0, 1)
    ensures InHexagon(pitch, r3, pitch / 2.0, 1.5 * (pitch / r3), PixelIndex(0, 1))
  {
    var p := PixelIndex(0, 1);
    assert CentreX(pitch, p) == pitch / 2.0 && CentreY(pitch / r3, p) == 1.5 * (pitch / r3);
    GetPixelIndexOfCentre(pitch, r3, p);
    CentreCoordinates(pitch, r3, p);
    HexagonInLatticeUnits(pitch, r3, pitch / 2.0, 1.5 * (pitch / r3), PixelIndex(-1, 1));
    HexagonInLatticeUnits(pitch, r3, pitch / 2.0, 1.5 * (pitch / r3), p);
  }

  /** Shifting by a pitch or by three sides moves lattice coordinates by 2 or 6. */
  lemma LatticeShifts(pitch: real, r3: real, x: real, y: real)
    requires ValidPitch(pitch, r3)
    ensures LatticeU(pitch, x + pitch) == LatticeU(pitch, x) + 2.0
    ensures LatticeV(pitch, r3, y + 3.0 * (pitch / r3)) == LatticeV(pitch, r3, y) + 6.0
  {
    var side := pitch / r3;
    assert side > 0.0 by {
      SlopeTimesHalfPitch(pitch, r3);
    }
    assert (x + pitch + pitch / 2.0) / (pitch / 2.0) == (x + pitch / 2.0) / (pitch / 2.0) + pitch / (pitch / 2.0);
    assert (y + 3.0 * side + side) / (side / 2.0) == (y + side) / (side / 2.0) + (3.0 * side) / (side / 2.0);
  }

  /** Translation periodicity: shifting x by one pitch moves the result one column to the right. */
  lemma GetPixelIndexShiftColumn(pitch: real, r3: real, x: real, y: real)
    requires ValidPitch(pitch, r3)
    ensures
      var p := GetPixelIndex(pitch, r3, x, y);
      GetPixelIndex(pitch, r3, x + pitch, y) == PixelIndex(p.x + 1, p.y)
  {
    LatticeShifts(pitch, r3, x, y);
    LatticeAgreement(pitch, r3, x, y, false);
    LatticeAgreement(pitch, r3, x + pitch, y, false);
    LatticeShiftColumn(LatticeU(pitch, x), LatticeV(pitch, r3, y), false);
  }

  /** Translation periodicity: shifting y by three sides moves the result two rows up. */
  lemma GetPixelIndexShiftRow(pitch: real, r3: real, x: real, y: real)
    requires ValidPitch(pitch, r3)
    ensures
      var p := GetPixelIndex(pitch, r3, x, y);
      GetPixelIndex(pitch, r3, x, y + 3.0 * (pitch / r3)) == PixelIndex(p.x, p.y + 2)
  {
    LatticeShifts(pitch, r3, x, y);
    LatticeAgreement(pitch, r3, x, y, false);
    LatticeAgreement(pitch, r3, x, y + 3.0 * (pitch / r3), false);
    LatticeShiftRow(LatticeU(pitch, x), LatticeV(pitch, r3, y), false);
  }

  // ---------------------------------------------------------------------------
  // Properties of getGridSize
  // ---------------------------------------------------------------------------

  /**
   * The width is nx pitches.  For at least one row the height runs from the
   * bottom corner of row 0 to the top corner of row ny - 1; for no rows it
   * is side / 2.
   */
  lemma GetGridSizeExtent(nx: nat, ny: nat, pitch: real, r3: real)
    requires ValidPitch(pitch, r3)
    ensures GetGridSize(nx, ny, pitch, r3).x == nx as real * pitch
    ensures ny == 0 ==> GetGridSize(nx, ny, pitch, r3).y == (pitch / r3) / 2.0
    ensures ny >= 1 ==> GetGridSize(nx, ny, pitch, r3).y
                        == (CentreY(pitch / r3, PixelIndex(0, ny - 1)) + pitch / r3) - (CentreY(pitch / r3, PixelIndex(0, 0)) - pitch / r3)
  {
    var side := pitch / r3;
    var m := ny / 2;
    assert ny == 2 * m + ny % 2;
    assert CentreY(side, PixelIndex(0, 0)) == 0.0;
    if ny % 2 == 1 {
      assert (ny - 1) / 2 == m;
      assert CentreY(side, PixelIndex(0, ny - 1)) == m as real * 3.0 * side;
    } else if ny >= 1 {
      assert CentreY(side, PixelIndex(0, ny - 1)) == (2 * m - 1) as real * 1.5 * side;
      assert (2 * m - 1) as real * 1.5 * side + side + side == m as real * 3.0 * side + side / 2.0;
    }
  }

  /** Two more rows add exactly 3 * side to the height. */
  lemma GetGridSizeTwoRows(nx: nat, ny: nat, pitch: real, r3: real)
    requires ValidPitch(pitch, r3)
    ensures GetGridSize(nx, ny + 2, pitch, r3).y == GetGridSize(nx, ny, pitch, r3).y + 3.0 * (pitch / r3)
    ensures GetGridSize(nx, ny + 2, pitch, r3).x == GetGridSize(nx, ny, pitch, r3).x
  {
    var m := ny / 2;
    assert ny == 2 * m + ny % 2;
    assert (ny + 2) / 2 == m + 1;
  }

  /** The extent grows strictly with the number of columns and with the number of rows. */
  lemma GetGridSizeIncreasing(nx: nat, ny: nat, pitch: real, r3: real)
    requires ValidPitch(pitch, r3)
    ensures GetGridSize(nx + 1, ny, pitch, r3).x > GetGridSize(nx, ny, pitch, r3).x
    ensures GetGridSize(nx, ny + 1, pitch, r3).y > GetGridSize(nx, ny, pitch, r3).y
  {
    var side := pitch / r3;
    assert side > 0.0 by {
      SlopeTimesHalfPitch(pitch, r3);
    }
    var m := ny / 2;
    assert ny == 2 * m + ny % 2;
    if ny % 2 == 0 {
      assert ny / 2 == m && ((ny + 1) - 1) / 2 == m;
    } else {
      assert (ny - 1) / 2 == m && (ny + 1) / 2 == m + 1;
    }
  }
}
