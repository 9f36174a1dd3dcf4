/** scanco_rescale: conversions between Scanco native units, linear
    attenuation (1/cm), Hounsfield units and bone mineral density
    (mgHA/ccm). Each conversion applies the same affine map to every voxel,
    so it is stated on one value. Arithmetic is exact here; a division by a
    zero calibration constant has no finite result (None). The two copies
    of the file (under AutomaticContour and AutoMask) hold the same code. */
module ScancoRescale {
  import opened Wrappers

  /** ScancoUnits / mu_scaling. */
  function ScancoToLinatt(s: real, muScaling: real): (r: Option<real>)
    ensures r.None? <==> muScaling == 0.0
    ensures r.Some? ==> r.value * muScaling == s
  {
    if muScaling == 0.0 then None else Some(s / muScaling)
  }

  /** LinearAttenuation * mu_scaling. */
  function LinattToScanco(l: real, muScaling: real): (r: real)
    ensures muScaling != 0.0 ==> ScancoToLinatt(r, muScaling) == Some(l)
  {
    var r := l * muScaling;
    if muScaling != 0.0 then
      assert r / muScaling * muScaling == r;
      CancelFactor(r / muScaling, l, muScaling);
      r
    else r
  }

  /** Scanco units to linear attenuation and back is the identity. */
  lemma ScancoRoundTrip(s: real, muScaling: real)
    requires muScaling != 0.0
    ensures LinattToScanco(ScancoToLinatt(s, muScaling).value, muScaling) == s
  {
  }

  /** (HU + 1000) * (mu_water / 1000). */
  function HuToLinatt(h: real, muWater: real): (r: real)
    ensures r * 1000.0 == (h + 1000.0) * muWater
  {
    (h + 1000.0) * (muWater / 1000.0)
  }

  /** LinearAttenuation * (1000 / mu_water) - 1000. */
  function LinattToHu(l: real, muWater: real): (r: Option<real>)
    ensures r.None? <==> muWater == 0.0
    ensures r.Some? ==> (r.value + 1000.0) * muWater == l * 1000.0
  {
    if muWater == 0.0 then None
    else
      var q := 1000.0 / muWater;
      assert q * muWater == 1000.0;
      Some(l * q - 1000.0)
  }

  /** HU to linear attenuation and back is the identity, and so is the
      other order, for a nonzero mu_water. */
  lemma HuRoundTrip(h: real, l: real, muWater: real)
    requires muWater != 0.0
    ensures LinattToHu(HuToLinatt(h, muWater), muWater) == Some(h)
    ensures HuToLinatt(LinattToHu(l, muWater).value, muWater) == l
  {
    var back := LinattToHu(HuToLinatt(h, muWater), muWater).value;
    assert (back + 1000.0) * muWater == (h + 1000.0) * muWater;
    CancelFactor(back + 1000.0, h + 1000.0, muWater);
  }

  lemma CancelFactor(a: real, b: real, c: real)
    requires c != 0.0 && a * c == b * c
    ensures a == b
  {
    assert (a - b) * c == 0.0;
  }

  /** -1000 + (ScancoUnits / mu_scaling) * (1000 / mu_water). */
  function ScancoToHu(s: real, muScaling: real, muWater: real): (r: Option<real>)
    ensures r.None? <==> muScaling == 0.0 || muWater == 0.0
    ensures r.Some? ==> ScancoToLinatt(s, muScaling).Some? && LinattToHu(ScancoToLinatt(s, muScaling).value, muWater) == r
  {
    if muScaling == 0.0 || muWater == 0.0 then None
    else
      var l := s / muScaling;
      LinattToHuValue(l, muWater);
      Some(-1000.0 + l * (1000.0 / muWater))
  }

  lemma LinattToHuValue(l: real, muWater: real)
    requires muWater != 0.0
    ensures LinattToHu(l, muWater) == Some(-1000.0 + l * (1000.0 / muWater))
  {
  }

  /** LinearAttenuation * slope + intercept. */
  function LinattToBmd(l: real, slope: real, intercept: real): (r: real)
    ensures slope != 0.0 ==> (r - intercept) / slope == l
  {
    l * slope + intercept
  }

  /** Scanco units to density through linear attenuation. */
  function ScancoToBmd(s: real, muScaling: real, slope: real, intercept: real): (r: Option<real>)
    ensures r.None? <==> muScaling == 0.0
    ensures r.Some? ==> r.value == LinattToBmd(ScancoToLinatt(s, muScaling).value, slope, intercept)
  {
    match ScancoToLinatt(s, muScaling)
    case None => None
    case Some(l) => Some(l * slope + intercept)
  }

  /** HU to Scanco units through linear attenuation. */
  function HuToScanco(h: real, muWater: real, muScaling: real): (r: real)
    ensures r == LinattToScanco(HuToLinatt(h, muWater), muScaling)
  {
    (h + 1000.0) * (muWater / 1000.0) * muScaling
  }

  /** Scanco units to HU undoes HU to Scanco units. */
  lemma HuScancoRoundTrip(h: real, muWater: real, muScaling: real)
    requires muWater != 0.0 && muScaling != 0.0
    ensures ScancoToHu(HuToScanco(h, muWater, muScaling), muScaling, muWater) == Some(h)
  {
    HuRoundTrip(h, 0.0, muWater);
  }

  /** HU to density through linear attenuation. */
  function HuToBmd(h: real, muWater: real, slope: real, intercept: real): (r: real)
    ensures r == LinattToBmd(HuToLinatt(h, muWater), slope, intercept)
  {
    (h + 1000.0) * (muWater / 1000.0) * slope + intercept
  }

  /** Water (0 HU) has the linear attenuation mu_water and air (-1000 HU)
      none; the densities follow from the calibration line. */
  lemma WaterAndAir(muWater: real, slope: real, intercept: real)
    ensures HuToLinatt(0.0, muWater) == muWater && HuToLinatt(-1000.0, muWater) == 0.0
    ensures HuToBmd(-1000.0, muWater, slope, intercept) == intercept
    ensures HuToBmd(0.0, muWater, slope, intercept) == muWater * slope + intercept
  {
  }
}
