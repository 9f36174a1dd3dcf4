/** Voxel volumes and the voxel-wise image algebra the pipelines compose.

    A volume is a finite map from grid indices (x, y, z) to an integer
    intensity or label; a field is the same over reals (distance maps and
    smoothed images). SimpleITK's binary filters require both operands to
    lie on the same grid, so the binary operations here require equal key
    sets. Filters whose internals are out of scope (Gaussian smoothing,
    distance maps, morphology, level sets) are never computed: their
    outputs enter the model as given volumes or fields. */
module Volumes {

  datatype Idx = Idx(x: int, y: int, z: int)

  type Volume = map<Idx, int>

  type Field = map<Idx, real>

  predicate InGrid(i: Idx, w: int, h: int, d: int) {
    0 <= i.x < w && 0 <= i.y < h && 0 <= i.z < d
  }

  /** The voxel indices of a w x h x d image. */
  function Grid(w: int, h: int, d: int): (g: set<Idx>)
    ensures forall i :: i in g <==> InGrid(i, w, h, d)
  {
    set x, y, z | 0 <= x < w && 0 <= y < h && 0 <= z < d :: Idx(x, y, z)
  }

  predicate SameGrid(a: Volume, b: Volume) {
    a.Keys == b.Keys
  }

  /** The voxels holding a nonzero value: the object of a mask. */
  function Support(a: Volume): set<Idx> {
    set i | i in a && a[i] != 0
  }

  /** The voxels holding exactly the value v. */
  function Level(a: Volume, v: int): set<Idx> {
    set i | i in a && a[i] == v
  }

  /** Every voxel holds 0 or the foreground value f. */
  predicate IsBinary(a: Volume, f: int) {
    forall i :: i in a ==> a[i] == 0 || a[i] == f
  }

  predicate NonNegative(a: Volume) {
    forall i :: i in a ==> a[i] >= 0
  }

  /** The mask that holds f on the voxels of s and 0 on the rest of keys. */
  function Indicator(keys: set<Idx>, s: set<Idx>, f: int): (r: Volume)
    ensures r.Keys == keys
    ensures IsBinary(r, f)
    ensures f != 0 ==> Support(r) == keys * s
  {
    map i | i in keys :: if i in s then f else 0
  }

  /** SimpleITK BinaryThreshold with outside value 0: `inside` exactly where
      lower <= value <= upper. */
  function Threshold(a: Volume, lower: int, upper: int, inside: int): (r: Volume)
    ensures r.Keys == a.Keys
    ensures IsBinary(r, inside)
    ensures inside != 0 ==> Support(r) == set i | i in a && lower <= a[i] <= upper
  {
    map i | i in a :: if lower <= a[i] <= upper then inside else 0
  }

  /** The upper threshold sitk.BinaryThreshold uses when none is given. */
  const UpperDefault := 255

  /** BinaryThreshold with only a lower threshold, the upper one left at
      its default 255: `inside` exactly where lower <= value <= 255. */
  function ThresholdAbove(a: Volume, lower: int, inside: int): (r: Volume)
    ensures r.Keys == a.Keys
    ensures IsBinary(r, inside)
    ensures inside != 0 ==> Support(r) == set i | i in a && lower <= a[i] <= UpperDefault
  {
    map i | i in a :: if lower <= a[i] <= UpperDefault then inside else 0
  }

  /** ThresholdAbove on a real-valued field: lower <= value <= 255. */
  function BandAbove(f: Field, lower: real, inside: int): (r: Volume)
    ensures r.Keys == f.Keys
    ensures IsBinary(r, inside)
    ensures inside != 0 ==> Support(r) == set i | i in f && lower <= f[i] <= UpperDefault as real
  {
    map i | i in f :: if lower <= f[i] <= UpperDefault as real then inside else 0
  }

  /** BinaryThreshold applied to a real-valued field (a distance map). */
  function Band(f: Field, lower: real, upper: real, inside: int): (r: Volume)
    ensures r.Keys == f.Keys
    ensures IsBinary(r, inside)
    ensures inside != 0 ==> Support(r) == set i | i in f && lower <= f[i] <= upper
  {
    map i | i in f :: if lower <= f[i] <= upper then inside else 0
  }

  /** Voxel-wise product: the mask product that confines one image to another. */
  function Mul(a: Volume, b: Volume): (r: Volume)
    requires SameGrid(a, b)
    ensures r.Keys == a.Keys
    ensures Support(r) == Support(a) * Support(b)
  {
    var r := map i | i in a :: a[i] * b[i];
    assert forall i :: i in r ==> (r[i] != 0 <==> a[i] != 0 && b[i] != 0) by {
      forall i | i in r ensures r[i] != 0 <==> a[i] != 0 && b[i] != 0 {
        ProductNonZero(a[i], b[i]);
      }
    }
    r
  }

  /** The product of two 0/1 masks is a 0/1 mask. */
  lemma MulBinary(a: Volume, b: Volume)
    requires SameGrid(a, b) && IsBinary(a, 1) && IsBinary(b, 1)
    ensures IsBinary(Mul(a, b), 1)
  {
    var r := Mul(a, b);
    assert forall i :: i in r ==> r[i] == a[i] * b[i];
  }

  lemma ProductNonZero(p: int, q: int)
    ensures p * q != 0 <==> p != 0 && q != 0
  {
    if p != 0 && q != 0 {
      if p > 0 && q > 0 { assert p * q >= q; }
      else if p > 0 { assert p * q <= q; }
      else if q > 0 { assert p * q <= p; }
      else { assert p * q >= -p; }
    }
  }

  function Add(a: Volume, b: Volume): (r: Volume)
    requires SameGrid(a, b)
    ensures r.Keys == a.Keys
    ensures NonNegative(a) && NonNegative(b) ==> Support(r) == Support(a) + Support(b)
  {
    map i | i in a :: a[i] + b[i]
  }

  function Sub(a: Volume, b: Volume): (r: Volume)
    requires SameGrid(a, b)
    ensures r.Keys == a.Keys
    ensures forall i :: i in r ==> (r[i] == 0 <==> a[i] == b[i])
  {
    map i | i in a :: a[i] - b[i]
  }

  /** SimpleITK InvertIntensity with the given maximum. */
  function Invert(a: Volume, maximum: int): (r: Volume)
    ensures r.Keys == a.Keys
    ensures IsBinary(a, maximum) ==> IsBinary(r, maximum)
    ensures IsBinary(a, maximum) && maximum != 0 ==> Support(r) == a.Keys - Support(a)
  {
    map i | i in a :: maximum - a[i]
  }

  /** SimpleITK Mask: voxels where m holds `maskingValue` become
      `outsideValue`; every other voxel keeps its value from a. */
  function Mask(a: Volume, m: Volume, outsideValue: int, maskingValue: int): (r: Volume)
    requires SameGrid(a, m)
    ensures r.Keys == a.Keys
    ensures forall i :: i in r && i !in Level(m, maskingValue) ==> r[i] == a[i]
    ensures Level(m, maskingValue) <= Level(r, outsideValue)
  {
    map i | i in a :: if m[i] == maskingValue then outsideValue else a[i]
  }

  /** Bitwise or of two non-negative integers, as SimpleITK's Or filter
      computes on unsigned images. */
  function BitOr(p: nat, q: nat): (r: nat)
    ensures r == 0 <==> p == 0 && q == 0
    ensures p <= r && q <= r
    decreases p + q
  {
    if p == 0 then q
    else if q == 0 then p
    else 2 * BitOr(p / 2, q / 2) + (if p % 2 == 1 || q % 2 == 1 then 1 else 0)
  }

  /** Bitwise and of two non-negative integers (SimpleITK And). */
  function BitAnd(p: nat, q: nat): (r: nat)
    ensures r <= p && r <= q
    decreases p + q
  {
    if p == 0 || q == 0 then 0
    else 2 * BitAnd(p / 2, q / 2) + (if p % 2 == 1 && q % 2 == 1 then 1 else 0)
  }

  function Or(a: Volume, b: Volume): (r: Volume)
    requires SameGrid(a, b) && NonNegative(a) && NonNegative(b)
    ensures r.Keys == a.Keys && NonNegative(r)
    ensures Support(r) == Support(a) + Support(b)
  {
    map i | i in a :: BitOr(a[i], b[i])
  }
}
