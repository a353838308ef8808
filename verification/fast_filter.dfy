/** The pass-through point filter (src/coordinate_filter_fast.cpp): detections inside the
    1000 x 1000 range are typed by their colour, only the first point of each Heck number
    is kept, and at most four front points are passed on after all other points. */
module FastFilter {
  import opened Geometry
  import opened Text

  /** `PointType`. */
  datatype PointType = Identification | Front

  /** The parts of `Point` the filter reads and writes. */
  datatype FastPoint = FastPoint(pos: RPt, ptype: PointType, color: string)

  const MaxCoordinate := 1000.0
  const MaxFrontPoints := 4

  /** `isValidCoordinate`: both coordinates in [0, 1000]. */
  predicate IsValidCoordinate(p: FastPoint)
  {
    0.0 <= p.pos.x <= MaxCoordinate && 0.0 <= p.pos.y <= MaxCoordinate
  }

  predicate IsFront(p: FastPoint) { StartsWith(p.color, "Front") }
  predicate IsHeck(p: FastPoint) { StartsWith(p.color, "Heck") }

  /** The Heck number: the colour after "Heck". */
  function HeckNumber(p: FastPoint): string
    requires IsHeck(p)
  {
    p.color[4..]
  }

  /** The point with the colour attached and the type set from it. */
  function Tagged(p: FastPoint, color: string): (r: FastPoint)
    ensures r.pos == p.pos && r.color == color
    ensures StartsWith(color, "Front") ==> r.ptype == Front
    ensures !StartsWith(color, "Front") && StartsWith(color, "Heck") ==> r.ptype == Identification
    ensures !StartsWith(color, "Front") && !StartsWith(color, "Heck") ==> r.ptype == p.ptype
  {
    var t := if StartsWith(color, "Front") then Front else if StartsWith(color, "Heck") then Identification else p.ptype;
    FastPoint(p.pos, t, color)
  }

  /** The first loop of `filterAndSmooth` over the first `n` detections. */
  function Accepted(dets: seq<FastPoint>, colors: seq<string>, n: nat): (r: seq<FastPoint>)
    requires n <= |dets| && n <= |colors|
    ensures |r| <= n
    ensures forall x :: x in r ==> IsValidCoordinate(x)
    ensures forall k :: 0 <= k < |r| ==> exists i :: 0 <= i < n && r[k] == Tagged(dets[i], colors[i])
    ensures forall i :: 0 <= i < n && IsValidCoordinate(dets[i]) ==> Tagged(dets[i], colors[i]) in r
  {
    if n == 0 then []
    else
      var prev := Accepted(dets, colors, n - 1);
      var p := Tagged(dets[n - 1], colors[n - 1]);
      if IsValidCoordinate(dets[n - 1]) then prev + [p] else prev
  }

  /** No two Heck points of `s` carry the same Heck number. */
  ghost predicate HeckDistinct(s: seq<FastPoint>)
  {
    forall k, l :: 0 <= k < l < |s| && IsHeck(s[k]) && IsHeck(s[l]) ==> HeckNumber(s[k]) != HeckNumber(s[l])
  }

  /** The Heck number of `p` differs from that of every Heck point in `s`. */
  ghost predicate NumberFresh(p: FastPoint, s: seq<FastPoint>)
  {
    IsHeck(p) ==> forall x :: x in s && IsHeck(x) ==> HeckNumber(x) != HeckNumber(p)
  }

  lemma {:induction false} HeckDistinctCons(p: FastPoint, s: seq<FastPoint>)
    ensures HeckDistinct([p] + s) <==> HeckDistinct(s) && NumberFresh(p, s)
  {
    var t := [p] + s;
    if HeckDistinct(t) {
      forall k, l | 0 <= k < l < |s| && IsHeck(s[k]) && IsHeck(s[l]) ensures HeckNumber(s[k]) != HeckNumber(s[l]) {
        assert t[k + 1] == s[k] && t[l + 1] == s[l];
      }
      if IsHeck(p) {
        forall x | x in s && IsHeck(x) ensures HeckNumber(x) != HeckNumber(p) {
          var j :| 0 <= j < |s| && s[j] == x;
          assert t[j + 1] == x && t[0] == p;
        }
      }
    }
    if HeckDistinct(s) && NumberFresh(p, s) {
      forall k, l | 0 <= k < l < |t| && IsHeck(t[k]) && IsHeck(t[l]) ensures HeckNumber(t[k]) != HeckNumber(t[l]) {
        assert t[l] == s[l - 1];
        if k > 0 {
          assert t[k] == s[k - 1];
        } else {
          assert t[l] in s;
        }
      }
    }
  }

  /** Appending points that are not Heck points keeps the Heck numbers distinct. */
  lemma {:induction false} HeckDistinctAppend(a: seq<FastPoint>, b: seq<FastPoint>)
    requires HeckDistinct(a) && forall x :: x in b ==> !IsHeck(x)
    ensures HeckDistinct(a + b)
  {
    var t := a + b;
    forall k, l | 0 <= k < l < |t| && IsHeck(t[k]) && IsHeck(t[l]) ensures HeckNumber(t[k]) != HeckNumber(t[l]) {
      if l < |a| {
        assert t[k] == a[k] && t[l] == a[l];
      }
    }
  }

  /** Point `i` is the first of its Heck number. */
  ghost predicate FirstOfNumber(pts: seq<FastPoint>, i: nat)
    requires i < |pts| && IsHeck(pts[i])
  {
    forall j :: 0 <= j < i && IsHeck(pts[j]) ==> HeckNumber(pts[j]) != HeckNumber(pts[i])
  }

  /** `a` is `b` with some elements left out, the rest in their order. */
  ghost predicate IsSubsequence(a: seq<FastPoint>, b: seq<FastPoint>)
    decreases |b|
  {
    |a| == 0 || (|b| > 0 && ((a[0] == b[0] && IsSubsequence(a[1..], b[1..])) || IsSubsequence(a, b[1..])))
  }

  /** `removeDuplicateHeckPoints`, with the Heck numbers already `seen`: each Heck number
      keeps its first point, every other point is kept, and the order is unchanged. */
  function RemoveDuplicateHeck(pts: seq<FastPoint>, seen: set<string>): (r: seq<FastPoint>)
    ensures |r| <= |pts|
    ensures IsSubsequence(r, pts)
    ensures forall x :: x in r ==> x in pts
    ensures Fronts(r) == Fronts(pts)
    ensures forall x :: x in pts && !IsHeck(x) ==> x in r
    ensures forall x :: x in r && IsHeck(x) ==> HeckNumber(x) !in seen
    ensures HeckDistinct(r)
  {
    if |pts| == 0 then []
    else
      var p := pts[0];
      var tail := pts[1..];
      assert pts == [p] + tail;
      if IsHeck(p) then
        HeckNotFront(p);
        OthersCons(p, tail);
        if HeckNumber(p) in seen then
          var rest := RemoveDuplicateHeck(tail, seen);
          assert IsSubsequence(rest, pts) by { assert pts[1..] == tail; }
          rest
        else
          var rest := RemoveDuplicateHeck(tail, seen + {HeckNumber(p)});
          OthersCons(p, rest);
          HeckDistinctCons(p, rest);
          assert IsSubsequence([p] + rest, pts) by { assert ([p] + rest)[1..] == rest && pts[1..] == tail; }
          [p] + rest
      else
        var rest := RemoveDuplicateHeck(tail, seen);
        OthersCons(p, tail);
        OthersCons(p, rest);
        HeckDistinctCons(p, rest);
        assert IsSubsequence([p] + rest, pts) by { assert ([p] + rest)[1..] == rest && pts[1..] == tail; }
        [p] + rest
  }

  /** The first point of each Heck number not already seen survives. */
  lemma {:induction false} KeepsFirstOfNumber(pts: seq<FastPoint>, seen: set<string>, i: nat)
    requires i < |pts| && IsHeck(pts[i]) && HeckNumber(pts[i]) !in seen && FirstOfNumber(pts, i)
    ensures pts[i] in RemoveDuplicateHeck(pts, seen)
    decreases |pts|
  {
    var p := pts[0];
    var tail := pts[1..];
    if i == 0 {
      assert RemoveDuplicateHeck(pts, seen) == [p] + RemoveDuplicateHeck(tail, seen + {HeckNumber(p)});
    } else {
      FirstOfNumberShift(pts, i);
      if IsHeck(p) && HeckNumber(p) !in seen {
        KeepsFirstOfNumber(tail, seen + {HeckNumber(p)}, i - 1);
        assert RemoveDuplicateHeck(pts, seen) == [p] + RemoveDuplicateHeck(tail, seen + {HeckNumber(p)});
      } else if IsHeck(p) {
        KeepsFirstOfNumber(tail, seen, i - 1);
        assert RemoveDuplicateHeck(pts, seen) == RemoveDuplicateHeck(tail, seen);
      } else {
        KeepsFirstOfNumber(tail, seen, i - 1);
        assert RemoveDuplicateHeck(pts, seen) == [p] + RemoveDuplicateHeck(tail, seen);
      }
    }
  }

  /** Being first of its number carries over to the tail, and differs from a Heck head. */
  lemma {:induction false} FirstOfNumberShift(pts: seq<FastPoint>, i: nat)
    requires 0 < i < |pts| && IsHeck(pts[i]) && FirstOfNumber(pts, i)
    ensures pts[1..][i - 1] == pts[i] && FirstOfNumber(pts[1..], i - 1)
    ensures IsHeck(pts[0]) ==> HeckNumber(pts[0]) != HeckNumber(pts[i])
  {
    var tail := pts[1..];
    forall j | 0 <= j < i - 1 && IsHeck(tail[j]) ensures HeckNumber(tail[j]) != HeckNumber(tail[i - 1]) {
      assert tail[j] == pts[j + 1];
    }
  }

  lemma {:induction false} HeckNotFront(p: FastPoint)
    requires IsHeck(p)
    ensures !IsFront(p)
  {
    assert p.color[0] == 'H';
  }

  /** The front points in order. */
  function Fronts(pts: seq<FastPoint>): (r: seq<FastPoint>)
    ensures |r| <= |pts|
    ensures forall x :: x in r <==> x in pts && IsFront(x)
  {
    if |pts| == 0 then [] else (if IsFront(pts[0]) then [pts[0]] else []) + Fronts(pts[1..])
  }

  /** The other points in order. */
  function Others(pts: seq<FastPoint>): (r: seq<FastPoint>)
    ensures |r| <= |pts|
    ensures forall x :: x in r <==> x in pts && !IsFront(x)
  {
    if |pts| == 0 then [] else (if IsFront(pts[0]) then [] else [pts[0]]) + Others(pts[1..])
  }

  lemma {:induction false} OthersCons(p: FastPoint, s: seq<FastPoint>)
    ensures Others([p] + s) == (if IsFront(p) then [] else [p]) + Others(s)
    ensures Fronts([p] + s) == (if IsFront(p) then [p] else []) + Fronts(s)
  {
    assert ([p] + s)[1..] == s;
  }

  lemma {:induction false} SplitAppend(a: seq<FastPoint>, b: seq<FastPoint>)
    ensures Others(a + b) == Others(a) + Others(b)
    ensures Fronts(a + b) == Fronts(a) + Fronts(b)
  {
    OthersAppend(a, b);
    FrontsAppend(a, b);
  }

  lemma {:induction false} OthersAppend(a: seq<FastPoint>, b: seq<FastPoint>)
    ensures Others(a + b) == Others(a) + Others(b)
    decreases |a|
  {
    if |a| > 0 {
      var t := a + b;
      assert t[0] == a[0] && t[1..] == a[1..] + b;
      OthersAppend(a[1..], b);
      var h := if IsFront(a[0]) then [] else [a[0]];
      assert Others(t) == h + (Others(a[1..]) + Others(b));
      assert h + (Others(a[1..]) + Others(b)) == (h + Others(a[1..])) + Others(b);
    } else {
      assert a + b == b;
    }
  }

  lemma {:induction false} FrontsAppend(a: seq<FastPoint>, b: seq<FastPoint>)
    ensures Fronts(a + b) == Fronts(a) + Fronts(b)
    decreases |a|
  {
    if |a| > 0 {
      var t := a + b;
      assert t[0] == a[0] && t[1..] == a[1..] + b;
      FrontsAppend(a[1..], b);
      var h := if IsFront(a[0]) then [a[0]] else [];
      assert Fronts(t) == h + (Fronts(a[1..]) + Fronts(b));
      assert h + (Fronts(a[1..]) + Fronts(b)) == (h + Fronts(a[1..])) + Fronts(b);
    } else {
      assert a + b == b;
    }
  }

  lemma {:induction false} OthersIdempotent(pts: seq<FastPoint>)
    ensures Others(Others(pts)) == Others(pts) && Fronts(Others(pts)) == []
    decreases |pts|
  {
    if |pts| > 0 {
      var p := pts[0];
      var rest := Others(pts[1..]);
      OthersIdempotent(pts[1..]);
      if IsFront(p) {
        assert Others(pts) == rest;
      } else {
        assert Others(pts) == [p] + rest;
        OthersCons(p, rest);
      }
    }
  }

  lemma {:induction false} FrontsIdempotent(pts: seq<FastPoint>)
    ensures Fronts(Fronts(pts)) == Fronts(pts) && Others(Fronts(pts)) == []
    decreases |pts|
  {
    if |pts| > 0 {
      var p := pts[0];
      var rest := Fronts(pts[1..]);
      FrontsIdempotent(pts[1..]);
      if IsFront(p) {
        assert Fronts(pts) == [p] + rest;
        OthersCons(p, rest);
      } else {
        assert Fronts(pts) == rest;
      }
    }
  }

  lemma {:induction false} SplitSizes(pts: seq<FastPoint>)
    ensures |Others(pts)| + |Fronts(pts)| == |pts|
    decreases |pts|
  {
    if |pts| > 0 {
      SplitSizes(pts[1..]);
    }
  }

  lemma {:induction false} PrefixOfFronts(fronts: seq<FastPoint>, n: nat)
    requires n <= |fronts| && Others(fronts) == [] && Fronts(fronts) == fronts
    ensures Others(fronts[..n]) == [] && Fronts(fronts[..n]) == fronts[..n]
  {
    assert fronts == fronts[..n] + fronts[n..];
    SplitAppend(fronts[..n], fronts[n..]);
    SplitSizes(fronts[..n]);
    SplitSizes(fronts[n..]);
  }

  /** The other points keep distinct Heck numbers. */
  lemma {:induction false} OthersDistinct(pts: seq<FastPoint>)
    requires HeckDistinct(pts)
    ensures HeckDistinct(Others(pts))
    decreases |pts|
  {
    if |pts| > 0 {
      var p := pts[0];
      assert pts == [p] + pts[1..];
      HeckDistinctCons(p, pts[1..]);
      OthersDistinct(pts[1..]);
      OthersCons(p, pts[1..]);
      if !IsFront(p) {
        HeckDistinctCons(p, Others(pts[1..]));
      }
    }
  }

  /** `limitFrontPoints`: every other point in order, then the first `maxFront` front points. */
  function LimitFrontPoints(pts: seq<FastPoint>, maxFront: nat): (r: seq<FastPoint>)
    ensures |r| <= |pts|
    ensures Others(r) == Others(pts)
    ensures Fronts(r) == Fronts(pts)[..Min(maxFront, |Fronts(pts)|)]
    ensures |Fronts(r)| <= maxFront
    ensures r[..|Others(pts)|] == Others(pts)
    ensures forall x :: x in r ==> x in pts
  {
    var fronts := Fronts(pts);
    var kept := fronts[..Min(maxFront, |fronts|)];
    SplitAppend(Others(pts), kept);
    OthersIdempotent(pts);
    FrontsIdempotent(pts);
    PrefixOfFronts(fronts, Min(maxFront, |fronts|));
    SplitSizes(pts);
    assert forall x :: x in kept ==> x in fronts;
    Others(pts) + kept
  }

  /** Limiting the front points keeps the Heck numbers distinct. */
  lemma {:induction false} LimitKeepsHeckDistinct(pts: seq<FastPoint>, maxFront: nat)
    requires HeckDistinct(pts)
    ensures HeckDistinct(LimitFrontPoints(pts, maxFront))
  {
    var fronts := Fronts(pts);
    var kept := fronts[..Min(maxFront, |fronts|)];
    OthersDistinct(pts);
    forall x | x in kept ensures !IsHeck(x) {
      assert x in fronts;
      if IsHeck(x) {
        HeckNotFront(x);
      }
    }
    HeckDistinctAppend(Others(pts), kept);
  }

  /** A colour that names neither a front nor a Heck point. */
  predicate PlainColor(c: string)
  {
    !StartsWith(c, "Front") && !StartsWith(c, "Heck")
  }

  /** Point `k` of `pts` is a Heck point and the first of its number. */
  ghost predicate FirstHeckAt(pts: seq<FastPoint>, k: int)
  {
    0 <= k < |pts| && IsHeck(pts[k]) && FirstOfNumber(pts, k)
  }

  /** Every Heck point that is the first of its number in `acc` is in `r`. */
  ghost predicate KeepsFirstHecks(acc: seq<FastPoint>, r: seq<FastPoint>)
  {
    forall k :: FirstHeckAt(acc, k) ==> acc[k] in r
  }

  /** The front points of `r` are the first four front points of `acc`, in order. */
  predicate FirstFronts(acc: seq<FastPoint>, r: seq<FastPoint>)
  {
    Fronts(r) == Fronts(acc)[..Min(MaxFrontPoints, |Fronts(acc)|)]
  }

  /** The fast `filterAndSmooth`: in-range points only, at most four front points, one
      point per Heck number, and never more points than detections. */
  function FilterAndSmooth(dets: seq<FastPoint>, colors: seq<string>): (r: seq<FastPoint>)
    ensures |r| <= Min(|dets|, |colors|)
    ensures forall x :: x in r ==> IsValidCoordinate(x)
    ensures |Fronts(r)| <= MaxFrontPoints
    ensures HeckDistinct(r)
    ensures forall x :: x in r ==> exists i :: 0 <= i < Min(|dets|, |colors|) && x == Tagged(dets[i], colors[i])
    ensures forall i :: 0 <= i < Min(|dets|, |colors|) && IsValidCoordinate(dets[i]) && PlainColor(colors[i]) ==>
      Tagged(dets[i], colors[i]) in r
    ensures KeepsFirstHecks(Accepted(dets, colors, Min(|dets|, |colors|)), r)
    ensures FirstFronts(Accepted(dets, colors, Min(|dets|, |colors|)), r)
  {
    var n := Min(|dets|, |colors|);
    var accepted := Accepted(dets, colors, n);
    var unique := RemoveDuplicateHeck(accepted, {});
    LimitKeepsHeckDistinct(unique, MaxFrontPoints);
    var r := LimitFrontPoints(unique, MaxFrontPoints);
    forall x | x in r ensures exists i :: 0 <= i < n && x == Tagged(dets[i], colors[i]) {
      var k :| 0 <= k < |accepted| && accepted[k] == x;
    }
    forall i | 0 <= i < n && IsValidCoordinate(dets[i]) && PlainColor(colors[i])
      ensures Tagged(dets[i], colors[i]) in r
    {
      var x := Tagged(dets[i], colors[i]);
      assert x in unique && x in Others(unique);
      assert x in Others(r);
    }
    forall k | FirstHeckAt(accepted, k) ensures accepted[k] in r {
      KeepsFirstOfNumber(accepted, {}, k);
      HeckNotFront(accepted[k]);
      assert accepted[k] in Others(unique);
      assert accepted[k] in Others(r);
    }
    r
  }
}
