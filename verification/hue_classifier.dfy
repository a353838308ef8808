/** The colour side of the camera's marker detector (src/Farberkennung.py): the closest-colour
    classifier with per-channel tolerances, the hue band(s) of the HSV mask, the crop window
    and the clamping of reported coordinates. Hues are OpenCV hues, 0 .. 179. */
module HueClassifier {
  import opened Wrappers
  import opened Geometry

  datatype Hsv = Hsv(h: int, s: int, v: int)

  /** Per-channel tolerances; the hue tolerance is set on a trackbar with maximum 90. */
  datatype Tolerance = Tolerance(h: int, s: int, v: int)

  datatype Profile = Profile(name: string, target: Hsv, tol: Tolerance)

  /** The five markers and their start-up tolerances, in declaration order. */
  const DefaultProfiles: seq<Profile> := [
    Profile("Front", Hsv(114, 255, 150), Tolerance(34, 48, 255)),
    Profile("Heck1", Hsv(72, 255, 60), Tolerance(9, 0, 255)),
    Profile("Heck2", Hsv(178, 190, 210), Tolerance(8, 103, 237)),
    Profile("Heck3", Hsv(155, 150, 110), Tolerance(27, 103, 41)),
    Profile("Heck4", Hsv(11, 160, 255), Tolerance(6, 117, 46))
  ]

  const MaxHueTolerance := 90

  predicate IsHue(h: int) { 0 <= h < 180 }

  /** Hue distance the short way round the 180-step circle. */
  function HueDist(h: int, t: int): (r: int)
    ensures r <= Abs(h - t)
    ensures r == Abs(h - t) || r == 180 - Abs(h - t)
    ensures IsHue(h) && IsHue(t) ==> 0 <= r <= 90
  {
    Min(Abs(h - t), 180 - Abs(h - t))
  }

  lemma HueDistSymmetric(h: int, t: int)
    ensures HueDist(h, t) == HueDist(t, h)
  {
    assert Abs(h - t) == Abs(t - h);
  }

  /** The tolerance gate of `find_closest_color`. */
  predicate Accepts(p: Profile, px: Hsv)
  {
    HueDist(px.h, p.target.h) <= p.tol.h
    && Abs(px.s - p.target.s) <= p.tol.s
    && Abs(px.v - p.target.v) <= p.tol.v
  }

  /** The unweighted distance `dh + ds + dv`. */
  function Distance(p: Profile, px: Hsv): int
  {
    HueDist(px.h, p.target.h) + Abs(px.s - p.target.s) + Abs(px.v - p.target.v)
  }

  /** Profile `i` is the answer: accepted, no accepted profile is closer, and every earlier
      accepted profile is strictly farther (the comparison is a strict `<`). */
  predicate Winner(profiles: seq<Profile>, px: Hsv, i: int)
  {
    0 <= i < |profiles| && Accepts(profiles[i], px)
    && (forall j :: 0 <= j < |profiles| && Accepts(profiles[j], px) ==>
          Distance(profiles[i], px) <= Distance(profiles[j], px))
    && (forall j :: 0 <= j < i && Accepts(profiles[j], px) ==>
          Distance(profiles[i], px) < Distance(profiles[j], px))
  }

  /** `find_closest_color`: `None` stands for `(None, inf)`. */
  method FindClosestColor(profiles: seq<Profile>, px: Hsv) returns (r: Option<(string, int)>)
    ensures r.None? <==> forall j :: 0 <= j < |profiles| ==> !Accepts(profiles[j], px)
    ensures r.Some? ==> exists i :: Winner(profiles, px, i) && r.value == (profiles[i].name, Distance(profiles[i], px))
  {
    var best := -1;
    var k := 0;
    while k < |profiles|
      invariant 0 <= k <= |profiles| && -1 <= best < k
      invariant best == -1 <==> forall j :: 0 <= j < k ==> !Accepts(profiles[j], px)
      invariant best >= 0 ==> Winner(profiles[..k], px, best)
    {
      if Accepts(profiles[k], px) && (best == -1 || Distance(profiles[k], px) < Distance(profiles[best], px)) {
        best := k;
      }
      assert profiles[..k + 1][..k] == profiles[..k];
      k := k + 1;
    }
    assert profiles[..k] == profiles;
    if best == -1 {
      r := None;
    } else {
      r := Some((profiles[best].name, Distance(profiles[best], px)));
    }
  }

  /** An inclusive range of channel values, as passed to `cv2.inRange`. */
  datatype Band = Band(lo: int, hi: int)

  predicate InBand(x: int, b: Band) { b.lo <= x <= b.hi }

  predicate InSomeBand(x: int, bs: seq<Band>) { exists i :: 0 <= i < |bs| && InBand(x, bs[i]) }

  /** The hue part of `create_hsv_mask`: one band, or two when the band crosses 0 or 179. */
  function HueBands(t: int, tol: int): (r: seq<Band>)
    ensures 1 <= |r| <= 2
    ensures |r| == 2 <==> t - tol < 0 || t + tol > 179
    ensures |r| == 1 ==> r[0] == Band(t - tol, t + tol)
    ensures |r| == 2 ==> (r[0].lo == 0 && r[1].hi == 179) || (r[0].hi == 179 && r[1].lo == 0)
  {
    if t - tol < 0 then [Band(0, t + tol), Band(180 + (t - tol), 179)]
    else if t + tol > 179 then [Band(t - tol, 179), Band(0, (t + tol) - 180)]
    else [Band(t - tol, t + tol)]
  }

  /** Saturation and value bounds, clamped to 0 .. 255. */
  function ChannelBand(t: int, tol: int): (r: Band)
    ensures 0 <= r.lo && r.hi <= 255
  {
    Band(Max(0, t - tol), Min(255, t + tol))
  }

  /** With a hue tolerance of at most 90 every band bound is a hue, so the `uint8`
      conversion of the bounds is exact. */
  lemma {:induction false} HueBandsAreHues(t: int, tol: int)
    requires IsHue(t) && 0 <= tol <= MaxHueTolerance
    ensures forall i :: 0 <= i < |HueBands(t, tol)| ==> IsHue(HueBands(t, tol)[i].lo) && IsHue(HueBands(t, tol)[i].hi)
  {
  }

  /** The mask's hue bands hold exactly the hues within the tolerance of the target. */
  lemma {:induction false} HueBandsExact(h: int, t: int, tol: int)
    requires IsHue(h) && IsHue(t) && 0 <= tol <= MaxHueTolerance
    ensures InSomeBand(h, HueBands(t, tol)) <==> HueDist(h, t) <= tol
  {
    var bs := HueBands(t, tol);
    if HueDist(h, t) <= tol {
      if Abs(h - t) <= tol {
        if t - tol < 0 || t + tol <= 179 {
          assert InBand(h, bs[0]);
        } else if h >= t - tol {
          assert InBand(h, bs[0]);
        }
      } else if t - tol < 0 {
        assert InBand(h, bs[1]);
      } else {
        assert InBand(h, bs[1]);
      }
    }
  }

  lemma {:induction false} ChannelBandExact(x: int, t: int, tol: int)
    requires 0 <= x <= 255
    ensures InBand(x, ChannelBand(t, tol)) <==> Abs(x - t) <= tol
  {
  }

  /** A pixel passes `create_hsv_mask` for a profile. */
  predicate InMask(p: Profile, px: Hsv)
  {
    InSomeBand(px.h, HueBands(p.target.h, p.tol.h))
    && InBand(px.s, ChannelBand(p.target.s, p.tol.s))
    && InBand(px.v, ChannelBand(p.target.v, p.tol.v))
  }

  /** The mask and the classifier's tolerance gate agree on every pixel. */
  lemma {:induction false} MaskMatchesGate(p: Profile, px: Hsv)
    requires IsHue(p.target.h) && 0 <= p.tol.h <= MaxHueTolerance
    requires IsHue(px.h) && 0 <= px.s <= 255 && 0 <= px.v <= 255
    ensures InMask(p, px) <==> Accepts(p, px)
  {
    HueBandsExact(px.h, p.target.h, p.tol.h);
    ChannelBandExact(px.s, p.target.s, p.tol.s);
    ChannelBandExact(px.v, p.target.v, p.tol.v);
  }

  /** The crop settings and the window `crop_frame` returns. */
  datatype Margins = Margins(left: int, right: int, top: int, bottom: int)

  datatype Window = Window(left: int, top: int, right: int, bottom: int)

  const MinCropSize := 50

  function CropWindow(width: int, height: int, m: Margins): (r: Window)
    ensures r.left >= 0 && r.top >= 0
    ensures r.right - r.left >= MinCropSize && r.bottom - r.top >= MinCropSize
    ensures r.right - r.left == MinCropSize || r.right == width - m.right
    ensures r.bottom - r.top == MinCropSize || r.bottom == height - m.bottom
  {
    var left := Max(0, m.left);
    var top := Max(0, m.top);
    Window(left, top, Max(left + MinCropSize, width - m.right), Max(top + MinCropSize, height - m.bottom))
  }

  /** Length of the Python slice `[lo:hi]` of a sequence of length `n`, for `0 <= lo`; a
      negative `hi` counts from the end. */
  function SliceLength(n: nat, lo: nat, hi: int): (r: nat)
    ensures r <= n
    ensures lo <= hi <= n ==> r == hi - lo
    ensures hi < 0 && lo <= hi + n ==> r == hi + n - lo
  {
    var end := if hi < 0 then Max(hi + n, 0) else Min(hi, n);
    Max(0, end - Min(lo, n))
  }

  /** The cropped frame's size: the window clipped to the frame. When the margins leave at
      least 50 pixels, the frame is exactly the window. */
  lemma {:induction false} CroppedSize(width: nat, height: nat, m: Margins)
    requires 0 <= m.left && 0 <= m.right && m.left + m.right + MinCropSize <= width
    requires 0 <= m.top && 0 <= m.bottom && m.top + m.bottom + MinCropSize <= height
    ensures SliceLength(width, CropWindow(width, height, m).left, CropWindow(width, height, m).right) == width - m.left - m.right
    ensures SliceLength(height, CropWindow(width, height, m).top, CropWindow(width, height, m).bottom) == height - m.top - m.bottom
  {
  }

  /** `normalize_coordinates` without the final `round(…, 2)`. */
  function NormalizeCoordinates(pos: Pt, cropWidth: int, cropHeight: int): (r: RPt)
    ensures 0.0 <= r.x && 0.0 <= r.y
    ensures cropWidth >= 0 ==> r.x <= cropWidth as real
    ensures cropHeight >= 0 ==> r.y <= cropHeight as real
    ensures 0 <= pos.x <= cropWidth ==> r.x == pos.x as real
    ensures 0 <= pos.y <= cropHeight ==> r.y == pos.y as real
  {
    RPt(ClampR(pos.x as real, 0.0, cropWidth as real), ClampR(pos.y as real, 0.0, cropHeight as real))
  }
}
