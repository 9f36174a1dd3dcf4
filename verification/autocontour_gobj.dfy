/** autocontour_gobj: contouring two bones that touch. The image is masked
    by each bone's GOBJ mask, each masked image is contoured with the
    periosteal pipeline, any overlap is taken from the distal mask, and the
    joint mask is the sum of the two. Masks are unsigned 8-bit images, so
    the subtraction and the sum wrap modulo 256. The periosteal pipeline
    enters as a given function. */
module AutocontourGobj {
  import opened Volumes
  import AutocontourKnee

  /** Every voxel holds an unsigned 8-bit value. */
  predicate Bytes(v: Volume) {
    forall i :: i in v ==> 0 <= v[i] < 256
  }

  /** A value and itself under the bitwise and. */
  lemma {:induction false} BitAndSelf(p: nat)
    ensures BitAnd(p, p) == p
    decreases p
  {
    if p > 0 {
      BitAndSelf(p / 2);
    }
  }

  /** `prx & dst` has a nonzero voxel. */
  predicate Overlap(prx: Volume, dst: Volume)
    requires SameGrid(prx, dst) && Bytes(prx) && Bytes(dst)
  {
    exists i :: i in prx && BitAnd(prx[i], dst[i]) != 0
  }

  /** For two masks of the same foreground value, the bitwise test finds
      exactly a shared voxel. */
  lemma OverlapIsShared(prx: Volume, dst: Volume, f: int)
    requires SameGrid(prx, dst) && Bytes(prx) && Bytes(dst)
    requires 0 < f < 256 && IsBinary(prx, f) && IsBinary(dst, f)
    ensures Overlap(prx, dst) <==> Support(prx) * Support(dst) != {}
  {
    BitAndSelf(f);
    if Support(prx) * Support(dst) != {} {
      var i :| i in Support(prx) * Support(dst);
      assert BitAnd(prx[i], dst[i]) != 0;
    }
    if Overlap(prx, dst) {
      var i :| i in prx && BitAnd(prx[i], dst[i]) != 0;
      assert i in Support(prx) * Support(dst);
    }
  }

  /** `(dst - prx) & dst` on unsigned 8-bit voxels. */
  function Subtract(prx: Volume, dst: Volume): (r: Volume)
    requires SameGrid(prx, dst) && Bytes(prx) && Bytes(dst)
    ensures r.Keys == dst.Keys && Bytes(r)
    ensures Support(r) <= Support(dst)
  {
    map i | i in dst :: BitAnd((dst[i] - prx[i]) % 256, dst[i])
  }

  /** Lines 65-71: the distal mask loses the overlap when there is one and
      is otherwise returned unchanged. */
  function RemoveOverlap(prx: Volume, dst: Volume): (r: Volume)
    requires SameGrid(prx, dst) && Bytes(prx) && Bytes(dst)
    ensures r.Keys == dst.Keys && Bytes(r)
    ensures Support(r) <= Support(dst)
    ensures !Overlap(prx, dst) ==> r == dst
  {
    if Overlap(prx, dst) then Subtract(prx, dst) else dst
  }

  /** On two masks of one foreground value the proximal mask wins: the
      distal result is the distal mask less the proximal one, still a mask
      of the same value, and so disjoint from the proximal mask. */
  lemma ProximalWins(prx: Volume, dst: Volume, f: int)
    requires SameGrid(prx, dst) && Bytes(prx) && Bytes(dst)
    requires 0 < f < 256 && IsBinary(prx, f) && IsBinary(dst, f)
    ensures IsBinary(RemoveOverlap(prx, dst), f)
    ensures Support(RemoveOverlap(prx, dst)) == Support(dst) - Support(prx)
    ensures Support(RemoveOverlap(prx, dst)) * Support(prx) == {}
  {
    OverlapIsShared(prx, dst, f);
    var r := RemoveOverlap(prx, dst);
    if Overlap(prx, dst) {
      forall i | i in dst ensures r[i] == (if dst[i] != 0 && prx[i] == 0 then f else 0) {
        SubtractVoxel(prx[i], dst[i], f);
      }
      assert Support(r) == Support(dst) - Support(prx);
    } else {
      forall i | i in Support(dst) ensures i !in Support(prx) {
        assert i !in Support(prx) * Support(dst);
      }
      assert Support(dst) - Support(prx) == Support(dst);
    }
  }

  /** One voxel of `(dst - prx) & dst` for two mask values 0 or f. */
  lemma SubtractVoxel(p: int, q: int, f: int)
    requires 0 < f < 256 && (p == 0 || p == f) && (q == 0 || q == f)
    ensures 0 <= (q - p) % 256
    ensures BitAnd((q - p) % 256, q) == if q != 0 && p == 0 then f else 0
  {
    BitAndSelf(f);
    if q == f && p == 0 {
      assert (q - p) % 256 == f;
    } else if q == f {
      assert (q - p) % 256 == 0;
    }
  }

  /** `prx + dst` on unsigned 8-bit voxels: the joint mask. */
  function Joint(prx: Volume, dst: Volume): (r: Volume)
    requires SameGrid(prx, dst) && Bytes(prx) && Bytes(dst)
    ensures r.Keys == prx.Keys && Bytes(r)
    ensures forall i :: i in r && prx[i] + dst[i] < 256 ==> r[i] == prx[i] + dst[i]
  {
    map i | i in prx :: (prx[i] + dst[i]) % 256
  }

  /** After the overlap removal the joint mask of two masks of one value is
      a mask of that value covering both bones. */
  lemma JointCoversBoth(prx: Volume, dst: Volume, f: int)
    requires SameGrid(prx, dst) && Bytes(prx) && Bytes(dst)
    requires 0 < f < 256 && IsBinary(prx, f) && IsBinary(dst, f)
    ensures IsBinary(Joint(prx, RemoveOverlap(prx, dst)), f)
    ensures Support(Joint(prx, RemoveOverlap(prx, dst))) == Support(prx) + Support(dst)
  {
    ProximalWins(prx, dst, f);
    var d := RemoveOverlap(prx, dst);
    var j := Joint(prx, d);
    forall i | i in j ensures j[i] == (if prx[i] != 0 || dst[i] != 0 then f else 0) {
      assert i in Support(d) <==> i in Support(dst) - Support(prx);
    }
  }

  /** ProximalWins and JointCoversBoth under a condition that implies
      their premises. */
  lemma MasksOfOneValue(prx: Volume, dst: Volume, f: int, cond: bool)
    requires SameGrid(prx, dst) && Bytes(prx) && Bytes(dst)
    requires cond ==> 0 < f < 256 && IsBinary(prx, f) && IsBinary(dst, f)
    ensures cond ==>
      Support(RemoveOverlap(prx, dst)) == Support(dst) - Support(prx) &&
      Support(Joint(prx, RemoveOverlap(prx, dst))) == Support(prx) + Support(dst) &&
      IsBinary(Joint(prx, RemoveOverlap(prx, dst)), f)
  {
    if cond {
      ProximalWins(prx, dst, f);
      JointCoversBoth(prx, dst, f);
    }
  }

  /** The two contours as written at lines 62-63: the mask named proximal
      is computed from the image masked by the distal GOBJ, and the other
      way round. */
  function ContoursAsWritten(image: Volume, dstGobj: Volume, prxGobj: Volume, peri: Volume -> Volume): (r: (Volume, Volume))
    requires SameGrid(image, dstGobj) && SameGrid(image, prxGobj)
    ensures (forall v :: Support(peri(v)) <= Support(v)) ==> Support(r.0) <= Support(dstGobj) && Support(r.1) <= Support(prxGobj)
  {
    var dstMasked := AutocontourKnee.MaskBy(image, dstGobj);
    var prxMasked := AutocontourKnee.MaskBy(image, prxGobj);
    (peri(dstMasked), peri(prxMasked))
  }

  /** The two contours with each bone contoured from its own GOBJ: with a
      contouring that marks only voxels of the image it is given, each mask
      lies in its own bone's GOBJ. */
  function Contours(image: Volume, dstGobj: Volume, prxGobj: Volume, peri: Volume -> Volume): (r: (Volume, Volume))
    requires SameGrid(image, dstGobj) && SameGrid(image, prxGobj)
    ensures (forall v :: Support(peri(v)) <= Support(v)) ==> Support(r.0) <= Support(prxGobj) && Support(r.1) <= Support(dstGobj)
  {
    var dstMasked := AutocontourKnee.MaskBy(image, dstGobj);
    var prxMasked := AutocontourKnee.MaskBy(image, prxGobj);
    (peri(prxMasked), peri(dstMasked))
  }

  /** The mask contouring keeps the nonzero voxels of its input. */
  function KeepNonZero(v: Volume): (r: Volume)
    ensures Support(r) == Support(v)
  {
    Indicator(v.Keys, Support(v), 127)
  }

  /** Two separate bones of one voxel each: as written, the mask written as
      proximal holds the distal bone; the corrected contours do not swap. */
  lemma SwappedBones()
    ensures Support(ContoursAsWritten(
      map[Idx(0, 0, 0) := 500, Idx(1, 0, 0) := 500], map[Idx(0, 0, 0) := 1, Idx(1, 0, 0) := 0],
      map[Idx(0, 0, 0) := 0, Idx(1, 0, 0) := 1], KeepNonZero).0) == {Idx(0, 0, 0)}
    ensures Support(Contours(
      map[Idx(0, 0, 0) := 500, Idx(1, 0, 0) := 500], map[Idx(0, 0, 0) := 1, Idx(1, 0, 0) := 0],
      map[Idx(0, 0, 0) := 0, Idx(1, 0, 0) := 1], KeepNonZero).0) == {Idx(1, 0, 0)}
  {
    var image: Volume := map[Idx(0, 0, 0) := 500, Idx(1, 0, 0) := 500];
    var dstGobj: Volume := map[Idx(0, 0, 0) := 1, Idx(1, 0, 0) := 0];
    var prxGobj: Volume := map[Idx(0, 0, 0) := 0, Idx(1, 0, 0) := 1];
    assert Support(AutocontourKnee.MaskBy(image, dstGobj)) == {Idx(0, 0, 0)} by {
      assert Support(image) == {Idx(0, 0, 0), Idx(1, 0, 0)};
      assert Support(dstGobj) == {Idx(0, 0, 0)};
    }
    assert Support(AutocontourKnee.MaskBy(image, prxGobj)) == {Idx(1, 0, 0)} by {
      assert Support(image) == {Idx(0, 0, 0), Idx(1, 0, 0)};
      assert Support(prxGobj) == {Idx(1, 0, 0)};
    }
  }

  /** Overlap removal and joint mask for a pair of contours: the mask in
      first place keeps the shared voxels, the other loses them, and the
      joint mask covers both. Returns (first, second less first, joint). */
  function Combine(prx: Volume, dst: Volume, f: int): (r: (Volume, Volume, Volume))
    requires SameGrid(prx, dst) && Bytes(prx) && Bytes(dst)
    ensures r.0 == prx
    ensures 0 < f < 256 && IsBinary(prx, f) && IsBinary(dst, f) ==>
      Support(r.1) == Support(dst) - Support(r.0) &&
      Support(r.2) == Support(r.0) + Support(r.1) && IsBinary(r.2, f)
  {
    var d := RemoveOverlap(prx, dst);
    MasksOfOneValue(prx, dst, f, 0 < f < 256 && IsBinary(prx, f) && IsBinary(dst, f));
    (prx, d, Joint(prx, d))
  }

  /** The whole pass as written: contour both bones, remove the overlap
      from the distal mask and sum. Returns (proximal, distal, joint). The
      mask named proximal is the contour of the distal-masked image, and
      the one named distal, of the proximal-masked image, loses the voxels
      it shares with it. */
  function Gobj(image: Volume, dstGobj: Volume, prxGobj: Volume, peri: Volume -> Volume, f: int): (r: (Volume, Volume, Volume))
    requires SameGrid(image, dstGobj) && SameGrid(image, prxGobj)
    requires forall v :: peri(v).Keys == v.Keys && Bytes(peri(v))
    ensures r.0 == peri(AutocontourKnee.MaskBy(image, dstGobj))
    ensures 0 < f < 256 && (forall v :: IsBinary(peri(v), f)) ==>
      Support(r.1) == Support(peri(AutocontourKnee.MaskBy(image, prxGobj))) - Support(r.0) &&
      Support(r.2) == Support(r.0) + Support(r.1) && IsBinary(r.2, f)
  {
    var c := ContoursAsWritten(image, dstGobj, prxGobj, peri);
    assert c.1 == peri(AutocontourKnee.MaskBy(image, prxGobj));
    Combine(c.0, c.1, f)
  }

  /** The whole pass with each bone contoured from its own GOBJ: with a
      contouring that produces masks of one value f, the proximal mask is
      the contour of its own GOBJ region, the distal mask keeps what the
      proximal one does not cover, and the joint mask covers both. */
  function GobjCorrected(image: Volume, dstGobj: Volume, prxGobj: Volume, peri: Volume -> Volume, f: int): (r: (Volume, Volume, Volume))
    requires SameGrid(image, dstGobj) && SameGrid(image, prxGobj)
    requires forall v :: peri(v).Keys == v.Keys && Bytes(peri(v))
    ensures r.0 == peri(AutocontourKnee.MaskBy(image, prxGobj))
    ensures 0 < f < 256 && (forall v :: IsBinary(peri(v), f)) ==>
      Support(r.1) == Support(peri(AutocontourKnee.MaskBy(image, dstGobj))) - Support(r.0) &&
      Support(r.2) == Support(r.0) + Support(r.1) && IsBinary(r.2, f)
  {
    var c := Contours(image, dstGobj, prxGobj, peri);
    assert c.1 == peri(AutocontourKnee.MaskBy(image, dstGobj));
    Combine(c.0, c.1, f)
  }
}
