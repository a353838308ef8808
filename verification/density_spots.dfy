/** Blob scoring and candidate selection of the camera's marker detector
    (src/Farberkennung.py, `find_highest_density_spot` and `detect_colors`). Blobs are given
    as records (centroid, area, perimeter, zeroth moment); the compactness term
    `4·pi·area / perimeter²` is a parameter, and so is the hue of the frame at a pixel. */
module DensitySpots {
  import opened Wrappers
  import opened Geometry
  import opened Sorting
  import opened HueClassifier

  datatype Blob = Blob(centroid: Pt, area: real, perimeter: real, m00: real)

  datatype Spot = Spot(pos: Pt, score: real)

  /** `(area, perimeter) -> 4·pi·area / perimeter²`. */
  type Compactness = (real, real) -> real

  function SpotScore(s: Spot): real { s.score }

  /** A blob becomes a spot when it is large enough, has a positive perimeter and a
      non-zero zeroth moment. */
  predicate Qualifies(b: Blob, minSize: real)
  {
    b.area >= minSize && b.perimeter > 0.0 && b.m00 != 0.0
  }

  function SpotOf(b: Blob, compact: Compactness): Spot
  {
    Spot(b.centroid, b.area * (1.0 + compact(b.area, b.perimeter)))
  }

  /** The `valid_spots` list before sorting, in contour order. */
  function ValidSpots(blobs: seq<Blob>, minSize: real, compact: Compactness): (r: seq<Spot>)
    ensures |r| <= |blobs|
  {
    if |blobs| == 0 then []
    else (if Qualifies(blobs[0], minSize) then [SpotOf(blobs[0], compact)] else [])
         + ValidSpots(blobs[1..], minSize, compact)
  }

  /** A spot is listed exactly when some qualifying blob yields it. */
  lemma {:induction false} ValidSpotsMembers(blobs: seq<Blob>, minSize: real, compact: Compactness, s: Spot)
    ensures s in ValidSpots(blobs, minSize, compact) <==>
      exists i :: 0 <= i < |blobs| && Qualifies(blobs[i], minSize) && s == SpotOf(blobs[i], compact)
    decreases |blobs|
  {
    if |blobs| > 0 {
      ValidSpotsMembers(blobs[1..], minSize, compact, s);
      if exists i :: 0 <= i < |blobs| && Qualifies(blobs[i], minSize) && s == SpotOf(blobs[i], compact) {
        var i :| 0 <= i < |blobs| && Qualifies(blobs[i], minSize) && s == SpotOf(blobs[i], compact);
        if i > 0 {
          assert blobs[1..][i - 1] == blobs[i];
        }
      }
      if s in ValidSpots(blobs[1..], minSize, compact) {
        var i :| 0 <= i < |blobs[1..]| && Qualifies(blobs[1..][i], minSize) && s == SpotOf(blobs[1..][i], compact);
        assert blobs[i + 1] == blobs[1..][i];
      }
    }
  }

  /** `find_highest_density_spot` on given blobs: the qualifying spots, best score first. */
  function DensitySpots(blobs: seq<Blob>, minSize: real, compact: Compactness): (r: seq<Spot>)
    ensures SortedDesc(r, SpotScore)
    ensures multiset(r) == multiset(ValidSpots(blobs, minSize, compact))
  {
    SortDesc(ValidSpots(blobs, minSize, compact), SpotScore)
  }

  /** Distance below 30 pixels, compared on squared integer distances. */
  const MinFrontGapSq := 900

  predicate TooClose(p: Pt, q: Pt) { SqDist(p, q) < MinFrontGapSq }

  predicate FarFromAll(p: Pt, sel: seq<Spot>)
  {
    forall k :: 0 <= k < |sel| ==> !TooClose(p, sel[k].pos)
  }

  predicate Spread(sel: seq<Spot>)
  {
    forall i, j :: 0 <= i < j < |sel| ==> !TooClose(sel[i].pos, sel[j].pos)
  }

  const MaxFronts := 4

  /** One spot of the greedy pass: taken when fewer than four are taken and it is at least
      30 pixels from each of them. */
  function Offer(sel: seq<Spot>, s: Spot): (r: seq<Spot>)
    ensures r == sel || (r == sel + [s] && |sel| < MaxFronts && FarFromAll(s.pos, sel))
    ensures |sel| <= MaxFronts ==> |r| <= MaxFronts
  {
    if FarFromAll(s.pos, sel) && |sel| < MaxFronts then sel + [s] else sel
  }

  lemma {:induction false} OfferSpread(sel: seq<Spot>, s: Spot)
    requires Spread(sel)
    ensures Spread(Offer(sel, s))
  {
    var r := Offer(sel, s);
    if r != sel {
      forall i, j | 0 <= i < j < |r| ensures !TooClose(r[i].pos, r[j].pos) {
        if j == |sel| {
          assert r[j] == s && r[i] == sel[i];
          SqDistSymmetric(r[i].pos, s.pos);
        } else {
          assert r[i] == sel[i] && r[j] == sel[j];
        }
      }
    }
  }

  /** The Front selection of `detect_colors` over spots in score order. */
  function SelectFronts(spots: seq<Spot>): (r: seq<Spot>)
    ensures |r| <= MaxFronts
    decreases |spots|
  {
    if |spots| == 0 then []
    else Offer(SelectFronts(spots[..|spots| - 1]), spots[|spots| - 1])
  }

  /** The taken spots are pairwise at least 30 pixels apart and come from the input. */
  lemma {:induction false} SelectFrontsSpread(spots: seq<Spot>)
    ensures Spread(SelectFronts(spots))
    ensures forall i :: 0 <= i < |SelectFronts(spots)| ==> SelectFronts(spots)[i] in spots
    decreases |spots|
  {
    if |spots| > 0 {
      var init := spots[..|spots| - 1];
      var sel := SelectFronts(init);
      SelectFrontsSpread(init);
      OfferSpread(sel, spots[|spots| - 1]);
      forall i | 0 <= i < |sel| ensures sel[i] in spots {
        var k :| 0 <= k < |init| && init[k] == sel[i];
        assert spots[k] == init[k];
      }
    }
  }

  /** Taken in score order: sorted input gives sorted output. */
  lemma {:induction false} SelectFrontsSorted(spots: seq<Spot>)
    requires SortedDesc(spots, SpotScore)
    ensures SortedDesc(SelectFronts(spots), SpotScore)
    decreases |spots|
  {
    if |spots| > 0 {
      var init := spots[..|spots| - 1];
      var r := SelectFronts(spots);
      SelectFrontsSorted(init);
      SelectFrontsSpread(init);
      var sel := SelectFronts(init);
      if r != sel {
        forall i | 0 <= i < |sel| ensures sel[i].score >= spots[|spots| - 1].score {
          var k :| 0 <= k < |init| && init[k] == sel[i];
          assert spots[k] == init[k];
        }
      }
    }
  }

  /** Every spot is taken or lies within 30 pixels of a taken one. */
  predicate Covered(spots: seq<Spot>, sel: seq<Spot>)
  {
    forall j :: 0 <= j < |spots| ==> spots[j] in sel || !FarFromAll(spots[j].pos, sel)
  }

  /** Greedy cover: when fewer than four spots were taken, every spot is taken or lies
      within 30 pixels of a taken one. */
  lemma {:induction false} SelectFrontsCover(spots: seq<Spot>)
    ensures |SelectFronts(spots)| < MaxFronts ==> Covered(spots, SelectFronts(spots))
    decreases |spots|
  {
    if |spots| > 0 {
      var init := spots[..|spots| - 1];
      var last := spots[|spots| - 1];
      SelectFrontsCover(init);
      if |SelectFronts(spots)| < MaxFronts {
        assert spots == init + [last];
        CoverStep(spots, init, last);
      }
    }
  }

  /** One greedy step keeps every earlier spot covered and covers the offered one. */
  lemma {:induction false} CoverStep(spots: seq<Spot>, init: seq<Spot>, last: Spot)
    requires spots == init + [last]
    requires |Offer(SelectFronts(init), last)| < MaxFronts
    requires Covered(init, SelectFronts(init))
    ensures Covered(spots, Offer(SelectFronts(init), last))
  {
    var sel := SelectFronts(init);
    var r := Offer(sel, last);
    forall j | 0 <= j < |spots| ensures spots[j] in r || !FarFromAll(spots[j].pos, r) {
      if j < |init| {
        assert spots[j] == init[j];
        CoveredStaysCovered(sel, r, spots[j]);
      } else if r != sel {
        assert r[|r| - 1] == last;
      } else {
        assert !FarFromAll(last.pos, sel);
      }
    }
  }

  lemma {:induction false} CoveredStaysCovered(sel: seq<Spot>, r: seq<Spot>, s: Spot)
    requires sel <= r && (s in sel || !FarFromAll(s.pos, sel))
    ensures s in r || !FarFromAll(s.pos, r)
  {
    if s in sel {
      var k :| 0 <= k < |sel| && sel[k] == s;
      assert r[k] == sel[k];
    } else {
      var k :| 0 <= k < |sel| && TooClose(s.pos, sel[k].pos);
      assert r[k] == sel[k];
    }
  }

  /** An entry of `all_candidates`. */
  datatype Candidate = Candidate(id: nat, pos: Pt, norm: RPt, color: string, score: real, hueDistance: int)

  function CandScore(c: Candidate): real { c.score }

  /** The frame the spots were found in: its size and the hue at each pixel inside it. */
  datatype Frame = Frame(width: int, height: int, hueAt: Pt -> int)

  predicate InFrame(f: Frame, p: Pt) { 0 <= p.y < f.height && 0 <= p.x < f.width }

  /** The hue check at a chosen spot: the pixel must lie in the frame and its hue must be
      within the profile's hue tolerance. */
  predicate HueConfirmed(f: Frame, p: Profile, s: Spot)
  {
    InFrame(f, s.pos) && HueDist(f.hueAt(s.pos), p.target.h) <= p.tol.h
  }

  /** The chosen spots that pass the hue check, in their order. */
  function ConfirmedSpots(f: Frame, p: Profile, chosen: seq<Spot>): (r: seq<Spot>)
    ensures |r| <= |chosen|
    ensures forall x :: x in r ==> x in chosen && HueConfirmed(f, p, x)
    ensures forall k :: 0 <= k < |chosen| && HueConfirmed(f, p, chosen[k]) ==> chosen[k] in r
    decreases |chosen|
  {
    if |chosen| == 0 then []
    else
      var rest := ConfirmedSpots(f, p, chosen[1..]);
      assert forall k :: 1 <= k < |chosen| ==> chosen[k] == chosen[1..][k - 1];
      (if HueConfirmed(f, p, chosen[0]) then [chosen[0]] else []) + rest
  }

  /** The `all_candidates` entry for a confirmed spot. */
  function CandidateOf(f: Frame, p: Profile, s: Spot, id: nat): (r: Candidate)
    ensures r.id == id && r.pos == s.pos && r.score == s.score && r.color == p.name
    ensures r.norm == NormalizeCoordinates(s.pos, f.width, f.height)
    ensures r.hueDistance == HueDist(f.hueAt(s.pos), p.target.h)
  {
    Candidate(id, s.pos, NormalizeCoordinates(s.pos, f.width, f.height), p.name, s.score, HueDist(f.hueAt(s.pos), p.target.h))
  }

  /** Candidates for the chosen spots of one colour, numbered from `nextId`: candidate `i` is
      made from the `i`-th chosen spot that lies in the frame and passes the hue check. */
  function Confirm(f: Frame, p: Profile, chosen: seq<Spot>, nextId: nat): (r: seq<Candidate>)
    ensures |r| <= |chosen|
    ensures forall i :: 0 <= i < |r| ==> r[i].color == p.name && r[i].id == nextId + i
    ensures var ok := ConfirmedSpots(f, p, chosen);
      |r| == |ok| && forall i :: 0 <= i < |r| ==> r[i] == CandidateOf(f, p, ok[i], nextId + i)
    decreases |chosen|
  {
    if |chosen| == 0 then []
    else
      var s := chosen[0];
      var conf := HueConfirmed(f, p, s);
      var rest := Confirm(f, p, chosen[1..], if conf then nextId + 1 else nextId);
      ConfirmStep(f, p, s, conf, nextId, rest, ConfirmedSpots(f, p, chosen[1..]));
      if conf then [CandidateOf(f, p, s, nextId)] + rest else rest
  }

  /** One spot more in front of the chosen list: a confirmed one becomes the first candidate
      and shifts the numbering of the rest. */
  lemma {:induction false} ConfirmStep(f: Frame, p: Profile, s: Spot, conf: bool, nextId: nat, rest: seq<Candidate>, okRest: seq<Spot>)
    requires |rest| == |okRest|
    requires forall i :: 0 <= i < |rest| ==> rest[i] == CandidateOf(f, p, okRest[i], (if conf then nextId + 1 else nextId) + i)
    ensures var r := if conf then [CandidateOf(f, p, s, nextId)] + rest else rest;
      var ok := if conf then [s] + okRest else okRest;
      |r| == |ok| && forall i :: 0 <= i < |r| ==> r[i] == CandidateOf(f, p, ok[i], nextId + i)
  {
    if conf {
      var r := [CandidateOf(f, p, s, nextId)] + rest;
      var ok := [s] + okRest;
      forall i | 0 <= i < |r| ensures r[i] == CandidateOf(f, p, ok[i], nextId + i) {
        if i > 0 {
          assert r[i] == rest[i - 1] && ok[i] == okRest[i - 1];
        }
      }
    }
  }

  /** The spots of one colour that are checked: up to four spread-out spots for Front, the
      best spot otherwise. */
  function Chosen(p: Profile, spots: seq<Spot>): (r: seq<Spot>)
    ensures p.name != "Front" ==> |r| <= 1
    ensures p.name == "Front" ==> |r| <= MaxFronts
  {
    if |spots| == 0 then []
    else if p.name == "Front" then SelectFronts(spots)
    else [spots[0]]
  }

  /** The spots of `ok`, each tagged with the profile that confirmed it. */
  function Tag(p: Profile, ok: seq<Spot>): (r: seq<(Profile, Spot)>)
    ensures |r| == |ok| && forall i :: 0 <= i < |r| ==> r[i] == (p, ok[i])
  {
    seq(|ok|, i requires 0 <= i < |ok| => (p, ok[i]))
  }

  /** The spots of `oks[k]` tagged with `profiles[k]`, profile after profile. */
  function Tagged(profiles: seq<Profile>, oks: seq<seq<Spot>>): (r: seq<(Profile, Spot)>)
    requires |oks| == |profiles|
    decreases |profiles|
  {
    if |profiles| == 0 then [] else Tag(profiles[0], oks[0]) + Tagged(profiles[1..], oks[1..])
  }

  /** Every spot of `oks[k]` appears in `Tagged`, with profile `k`. */
  lemma {:induction false} TaggedComplete(profiles: seq<Profile>, oks: seq<seq<Spot>>, k: nat, s: Spot) returns (j: nat)
    requires |oks| == |profiles| && k < |profiles| && s in oks[k]
    ensures j < |Tagged(profiles, oks)| && Tagged(profiles, oks)[j] == (profiles[k], s)
    decreases |profiles|
  {
    var t := Tag(profiles[0], oks[0]);
    if k == 0 {
      j :| 0 <= j < |oks[0]| && oks[0][j] == s;
      assert t[j] == (profiles[0], s);
    } else {
      assert profiles[1..][k - 1] == profiles[k] && oks[1..][k - 1] == oks[k];
      var j' := TaggedComplete(profiles[1..], oks[1..], k - 1, s);
      j := |t| + j';
    }
  }

  /** Every entry of `Tagged` is a spot of some `oks[k]`, with profile `k`. */
  lemma {:induction false} TaggedSound(profiles: seq<Profile>, oks: seq<seq<Spot>>, j: nat) returns (k: nat)
    requires |oks| == |profiles| && j < |Tagged(profiles, oks)|
    ensures k < |profiles| && Tagged(profiles, oks)[j].0 == profiles[k] && Tagged(profiles, oks)[j].1 in oks[k]
    decreases |profiles|
  {
    var t := Tag(profiles[0], oks[0]);
    var cp := Tagged(profiles, oks);
    if j < |t| {
      k := 0;
      assert cp[j] == t[j] == (profiles[0], oks[0][j]);
    } else {
      var k' := TaggedSound(profiles[1..], oks[1..], j - |t|);
      k := k' + 1;
      assert cp[j] == Tagged(profiles[1..], oks[1..])[j - |t|];
      assert profiles[1..][k'] == profiles[k] && oks[1..][k'] == oks[k];
    }
  }

  /** The spots each profile confirms, in profile order. */
  function ConfirmedLists(f: Frame, profiles: seq<Profile>, spotsOf: seq<seq<Spot>>): (r: seq<seq<Spot>>)
    requires |spotsOf| == |profiles|
    ensures |r| == |profiles|
  {
    seq(|profiles|, k requires 0 <= k < |profiles| => ConfirmedSpots(f, profiles[k], Chosen(profiles[k], spotsOf[k])))
  }

  /** The spots the collecting loop confirms, profile after profile, each with its profile. */
  function ConfirmedPairs(f: Frame, profiles: seq<Profile>, spotsOf: seq<seq<Spot>>): (r: seq<(Profile, Spot)>)
    requires |spotsOf| == |profiles|
  {
    Tagged(profiles, ConfirmedLists(f, profiles, spotsOf))
  }

  /** Peeling the first profile off the confirmed pairs. */
  lemma {:induction false} ConfirmedPairsCons(f: Frame, profiles: seq<Profile>, spotsOf: seq<seq<Spot>>)
    requires |spotsOf| == |profiles| > 0
    ensures ConfirmedPairs(f, profiles, spotsOf)
         == Tag(profiles[0], ConfirmedSpots(f, profiles[0], Chosen(profiles[0], spotsOf[0]))) + ConfirmedPairs(f, profiles[1..], spotsOf[1..])
  {
    var oks := ConfirmedLists(f, profiles, spotsOf);
    assert oks[1..] == ConfirmedLists(f, profiles[1..], spotsOf[1..]);
  }

  /** Candidate `i` of `r` is made from the `i`-th confirmed pair, with id `nextId + i`. */
  predicate Numbered(f: Frame, r: seq<Candidate>, cp: seq<(Profile, Spot)>, nextId: nat)
  {
    |r| == |cp| && forall i :: 0 <= i < |r| ==> r[i] == CandidateOf(f, cp[i].0, cp[i].1, nextId + i)
  }

  /** Numbered lists joined end to end stay numbered, the second continuing the first. */
  lemma {:induction false} NumberedAppend(f: Frame, a: seq<Candidate>, ca: seq<(Profile, Spot)>,
                                          b: seq<Candidate>, cb: seq<(Profile, Spot)>, nextId: nat)
    requires Numbered(f, a, ca, nextId) && Numbered(f, b, cb, nextId + |a|)
    ensures Numbered(f, a + b, ca + cb, nextId)
  {
    forall i | 0 <= i < |a + b| ensures (a + b)[i] == CandidateOf(f, (ca + cb)[i].0, (ca + cb)[i].1, nextId + i) {
      if i >= |a| {
        assert (a + b)[i] == b[i - |a|] && (ca + cb)[i] == cb[i - |a|];
      }
    }
  }

  /** The candidate-collecting loop of `detect_colors`, one profile after another, with
      `spotsOf[i]` the spots found in profile `i`'s mask: candidate `i` is made from the `i`-th
      confirmed spot, numbered from `nextId` without gaps. */
  function Collect(f: Frame, profiles: seq<Profile>, spotsOf: seq<seq<Spot>>, nextId: nat): (r: seq<Candidate>)
    requires |spotsOf| == |profiles|
    ensures forall i :: 0 <= i < |r| ==> exists k :: 0 <= k < |profiles| && r[i].color == profiles[k].name
    ensures forall i :: 0 <= i < |r| ==> r[i].id == nextId + i
    ensures Numbered(f, r, ConfirmedPairs(f, profiles, spotsOf), nextId)
    decreases |profiles|
  {
    if |profiles| == 0 then []
    else
      var mine := Confirm(f, profiles[0], Chosen(profiles[0], spotsOf[0]), nextId);
      var rest := Collect(f, profiles[1..], spotsOf[1..], nextId + |mine|);
      assert forall i :: 0 <= i < |rest| ==> exists k :: 0 <= k < |profiles| && rest[i].color == profiles[k].name by {
        forall i | 0 <= i < |rest| ensures exists k :: 0 <= k < |profiles| && rest[i].color == profiles[k].name {
          var k :| 0 <= k < |profiles[1..]| && rest[i].color == profiles[1..][k].name;
          assert profiles[k + 1] == profiles[1..][k];
        }
      }
      CollectStep(f, profiles, spotsOf, nextId, mine, rest);
      mine + rest
  }

  /** The candidates of the first profile followed by those of the rest are the candidates of
      the confirmed pairs, numbered on. */
  lemma {:induction false} CollectStep(f: Frame, profiles: seq<Profile>, spotsOf: seq<seq<Spot>>, nextId: nat,
                                       mine: seq<Candidate>, rest: seq<Candidate>)
    requires |spotsOf| == |profiles| > 0
    requires mine == Confirm(f, profiles[0], Chosen(profiles[0], spotsOf[0]), nextId)
    requires Numbered(f, rest, ConfirmedPairs(f, profiles[1..], spotsOf[1..]), nextId + |mine|)
    ensures Numbered(f, mine + rest, ConfirmedPairs(f, profiles, spotsOf), nextId)
  {
    var ok0 := ConfirmedSpots(f, profiles[0], Chosen(profiles[0], spotsOf[0]));
    var t := Tag(profiles[0], ok0);
    assert Numbered(f, mine, t, nextId);
    NumberedAppend(f, mine, t, rest, ConfirmedPairs(f, profiles[1..], spotsOf[1..]), nextId);
    ConfirmedPairsCons(f, profiles, spotsOf);
  }

  /** `s` is a chosen spot of profile `k` that passes the hue check. */
  predicate ConfirmedIn(f: Frame, profiles: seq<Profile>, spotsOf: seq<seq<Spot>>, k: int, s: Spot)
  {
    0 <= k < |profiles| && k < |spotsOf| && s in Chosen(profiles[k], spotsOf[k]) && HueConfirmed(f, profiles[k], s)
  }

  /** Every hue-confirmed chosen spot of every profile is among `r`, numbered by its place. */
  ghost predicate CollectsEveryConfirmed(f: Frame, profiles: seq<Profile>, spotsOf: seq<seq<Spot>>, nextId: nat, r: seq<Candidate>)
  {
    forall k, s :: ConfirmedIn(f, profiles, spotsOf, k, s) ==>
      exists i :: 0 <= i < |r| && r[i] == CandidateOf(f, profiles[k], s, nextId + i)
  }

  /** The spot a candidate was made from. */
  function SourceSpot(c: Candidate): Spot { Spot(c.pos, c.score) }

  /** Every candidate of `r` is made from its own spot, a hue-confirmed chosen spot of some
      profile, numbered by its place. */
  ghost predicate CollectsOnlyConfirmed(f: Frame, profiles: seq<Profile>, spotsOf: seq<seq<Spot>>, nextId: nat, r: seq<Candidate>)
  {
    forall i :: 0 <= i < |r| ==>
      exists k {:trigger profiles[k]} :: ConfirmedIn(f, profiles, spotsOf, k, SourceSpot(r[i]))
        && r[i] == CandidateOf(f, profiles[k], SourceSpot(r[i]), nextId + i)
  }

  /** Every hue-confirmed chosen spot of every profile is collected, numbered by its place,
      and every collected candidate is such a spot. */
  lemma {:induction false} CollectMembers(f: Frame, profiles: seq<Profile>, spotsOf: seq<seq<Spot>>, nextId: nat)
    requires |spotsOf| == |profiles|
    ensures CollectsEveryConfirmed(f, profiles, spotsOf, nextId, Collect(f, profiles, spotsOf, nextId))
    ensures CollectsOnlyConfirmed(f, profiles, spotsOf, nextId, Collect(f, profiles, spotsOf, nextId))
  {
    var r := Collect(f, profiles, spotsOf, nextId);
    forall k, s | ConfirmedIn(f, profiles, spotsOf, k, s)
      ensures exists i :: 0 <= i < |r| && r[i] == CandidateOf(f, profiles[k], s, nextId + i)
    {
      var i := ConfirmedIsCollected(f, profiles, spotsOf, nextId, k, s);
    }
    forall i | 0 <= i < |r|
      ensures exists k {:trigger profiles[k]} ::
                ConfirmedIn(f, profiles, spotsOf, k, SourceSpot(r[i])) && r[i] == CandidateOf(f, profiles[k], SourceSpot(r[i]), nextId + i)
    {
      var k, s := CollectedIsConfirmed(f, profiles, spotsOf, nextId, i);
      assert s == SourceSpot(r[i]);
    }
  }

  /** A hue-confirmed chosen spot is collected, as candidate `i`. */
  lemma {:induction false} ConfirmedIsCollected(f: Frame, profiles: seq<Profile>, spotsOf: seq<seq<Spot>>, nextId: nat, k: int, s: Spot)
    returns (i: nat)
    requires |spotsOf| == |profiles| && ConfirmedIn(f, profiles, spotsOf, k, s)
    ensures var r := Collect(f, profiles, spotsOf, nextId);
      i < |r| && r[i] == CandidateOf(f, profiles[k], s, nextId + i)
  {
    var chosen := Chosen(profiles[k], spotsOf[k]);
    var j :| 0 <= j < |chosen| && chosen[j] == s;
    var oks := ConfirmedLists(f, profiles, spotsOf);
    assert s in oks[k];
    i := TaggedComplete(profiles, oks, k, s);
    var cp := ConfirmedPairs(f, profiles, spotsOf);
    assert Numbered(f, Collect(f, profiles, spotsOf, nextId), cp, nextId);
  }

  /** Collected candidate `i` comes from the hue-confirmed chosen spot `s` of profile `k`. */
  lemma {:induction false} CollectedIsConfirmed(f: Frame, profiles: seq<Profile>, spotsOf: seq<seq<Spot>>, nextId: nat, i: nat)
    returns (k: nat, s: Spot)
    requires |spotsOf| == |profiles| && i < |Collect(f, profiles, spotsOf, nextId)|
    ensures ConfirmedIn(f, profiles, spotsOf, k, s)
    ensures Collect(f, profiles, spotsOf, nextId)[i] == CandidateOf(f, profiles[k], s, nextId + i)
  {
    var cp := ConfirmedPairs(f, profiles, spotsOf);
    assert Numbered(f, Collect(f, profiles, spotsOf, nextId), cp, nextId);
    var oks := ConfirmedLists(f, profiles, spotsOf);
    k := TaggedSound(profiles, oks, i);
    s := cp[i].1;
    assert s in ConfirmedSpots(f, profiles[k], Chosen(profiles[k], spotsOf[k]));
  }

  const HeckColors: set<string> := {"Heck1", "Heck2", "Heck3", "Heck4"}

  /** `x` is the first entry of `s` with its colour. */
  predicate FirstOfColor(s: seq<Candidate>, x: Candidate)
  {
    exists k :: 0 <= k < |s| && s[k] == x && forall j :: 0 <= j < k ==> s[j].color != x.color
  }

  /** The Heck pass over the sorted candidates: the first of each Heck colour not yet used. */
  function PickHecks(s: seq<Candidate>, used: set<string>): (r: seq<Candidate>)
    ensures forall i :: 0 <= i < |r| ==> r[i].color in HeckColors && r[i].color !in used
    ensures forall i, j :: 0 <= i < j < |r| ==> r[i].color != r[j].color
    decreases |s|
  {
    if |s| == 0 then []
    else if s[0].color in HeckColors && s[0].color !in used then [s[0]] + PickHecks(s[1..], used + {s[0].color})
    else PickHecks(s[1..], used)
  }

  /** The Heck pass only picks entries of the list. */
  lemma {:induction false} PickHecksFrom(s: seq<Candidate>, used: set<string>)
    ensures forall x :: x in PickHecks(s, used) ==> x in s
    decreases |s|
  {
    if |s| > 0 {
      var used' := if s[0].color in HeckColors && s[0].color !in used then used + {s[0].color} else used;
      PickHecksFrom(s[1..], used');
    }
  }

  lemma {:induction false} FirstOfColorTail(s: seq<Candidate>, x: Candidate)
    requires |s| > 0 && FirstOfColor(s[1..], x) && s[0].color != x.color
    ensures FirstOfColor(s, x)
  {
    var k :| 0 <= k < |s[1..]| && s[1..][k] == x && forall j :: 0 <= j < k ==> s[1..][j].color != x.color;
    assert s[k + 1] == x;
    forall j | 0 <= j < k + 1 ensures s[j].color != x.color {
      if j > 0 { assert s[j] == s[1..][j - 1]; }
    }
  }

  /** Each picked entry is the first of its colour, whenever earlier entries of a used
      colour cannot be the reason. */
  lemma {:induction false} PickHecksFirst(s: seq<Candidate>, used: set<string>)
    ensures forall i :: 0 <= i < |PickHecks(s, used)| ==> FirstOfColor(s, PickHecks(s, used)[i])
    decreases |s|
  {
    if |s| > 0 {
      var take := s[0].color in HeckColors && s[0].color !in used;
      var used' := if take then used + {s[0].color} else used;
      var rest := PickHecks(s[1..], used');
      PickHecksFirst(s[1..], used');
      var r := PickHecks(s, used);
      forall i | 0 <= i < |r| ensures FirstOfColor(s, r[i]) {
        if take && i == 0 {
          assert s[0] == r[0];
        } else {
          var x := if take then rest[i - 1] else rest[i];
          assert r[i] == x;
          assert x.color in HeckColors && x.color !in used';
          FirstOfColorTail(s, x);
        }
      }
    }
  }

  predicate HasColor(r: seq<Candidate>, color: string)
  {
    exists i :: 0 <= i < |r| && r[i].color == color
  }

  /** Every Heck colour seen and not yet used is picked. */
  lemma {:induction false} PickHecksComplete(s: seq<Candidate>, used: set<string>)
    ensures forall k :: 0 <= k < |s| && s[k].color in HeckColors && s[k].color !in used ==>
              HasColor(PickHecks(s, used), s[k].color)
    decreases |s|
  {
    if |s| > 0 {
      var take := s[0].color in HeckColors && s[0].color !in used;
      var used' := if take then used + {s[0].color} else used;
      var rest := PickHecks(s[1..], used');
      PickHecksComplete(s[1..], used');
      var r := PickHecks(s, used);
      forall k | 0 <= k < |s| && s[k].color in HeckColors && s[k].color !in used
        ensures HasColor(r, s[k].color)
      {
        if take && s[k].color == s[0].color {
          assert r[0] == s[0];
        } else {
          assert k > 0 && s[k] == s[1..][k - 1];
          assert HasColor(rest, s[1..][k - 1].color);
          var i :| 0 <= i < |rest| && rest[i].color == s[k].color;
          if take { assert r[i + 1] == rest[i]; } else { assert r[i] == rest[i]; }
        }
      }
    }
  }

  /** The Front candidates, in order. */
  function Fronts(s: seq<Candidate>): (r: seq<Candidate>)
    ensures |r| <= |s|
    ensures forall x :: x in r <==> x in s && x.color == "Front"
    decreases |s|
  {
    if |s| == 0 then []
    else (if s[0].color == "Front" then [s[0]] else []) + Fronts(s[1..])
  }

  /** Keeping the Front candidates of a list in score order keeps the order. */
  lemma {:induction false} FrontsSorted(s: seq<Candidate>)
    requires SortedDesc(s, CandScore)
    ensures SortedDesc(Fronts(s), CandScore)
    decreases |s|
  {
    if |s| > 0 {
      SortedTail(s);
      FrontsSorted(s[1..]);
      if s[0].color == "Front" {
        forall x | x in Fronts(s[1..]) ensures CandScore(s[0]) >= CandScore(x) {
          HeadIsBest(s, x);
        }
        ConsSorted(s[0], Fronts(s[1..]));
      }
    }
  }

  lemma {:induction false} SortedTail(s: seq<Candidate>)
    requires |s| > 0 && SortedDesc(s, CandScore)
    ensures SortedDesc(s[1..], CandScore)
  {
    forall i, j | 0 <= i < j < |s| - 1 ensures CandScore(s[1..][i]) >= CandScore(s[1..][j]) {
      assert s[1..][i] == s[i + 1] && s[1..][j] == s[j + 1];
    }
  }

  lemma {:induction false} HeadIsBest(s: seq<Candidate>, x: Candidate)
    requires |s| > 0 && SortedDesc(s, CandScore) && x in s[1..]
    ensures CandScore(s[0]) >= CandScore(x)
  {
    var k :| 0 <= k < |s| - 1 && s[1..][k] == x;
    assert s[k + 1] == x;
  }

  lemma {:induction false} ConsSorted(h: Candidate, t: seq<Candidate>)
    requires SortedDesc(t, CandScore) && forall x :: x in t ==> CandScore(h) >= CandScore(x)
    ensures SortedDesc([h] + t, CandScore)
  {
    var r := [h] + t;
    forall i, j | 0 <= i < j < |r| ensures CandScore(r[i]) >= CandScore(r[j]) {
      assert r[j] == t[j - 1];
      if i > 0 {
        assert r[i] == t[i - 1];
      } else {
        assert t[j - 1] in t;
      }
    }
  }

  /** The final selection of `detect_colors`: the best candidate of each Heck colour, in
      score order, followed by the four best Front candidates. */
  function FinalSelection(cands: seq<Candidate>): (r: seq<Candidate>)
    ensures forall x :: x in r ==> x in cands && (x.color in HeckColors || x.color == "Front")
  {
    var sorted := SortDesc(cands, CandScore);
    var fronts := SortDesc(Fronts(sorted), CandScore);
    var r := PickHecks(sorted, {}) + fronts[..Min(MaxFronts, |fronts|)];
    PickHecksFrom(sorted, {});
    forall x | x in r ensures x in cands && (x.color in HeckColors || x.color == "Front") {
      if x in PickHecks(sorted, {}) {
        assert x in multiset(sorted);
      } else {
        assert x in fronts;
        assert x in multiset(Fronts(sorted));
        assert x in multiset(sorted);
      }
    }
    r
  }

  /** The Heck part of the result: one entry per Heck colour seen, each the best-scoring
      candidate of its colour. */
  lemma {:induction false} FinalHecks(cands: seq<Candidate>)
    ensures var hecks := PickHecks(SortDesc(cands, CandScore), {});
      (forall i :: 0 <= i < |hecks| ==> hecks[i].color in HeckColors)
      && (forall i, j :: 0 <= i < j < |hecks| ==> hecks[i].color != hecks[j].color)
      && (forall i, c :: 0 <= i < |hecks| && c in cands && c.color == hecks[i].color ==> c.score <= hecks[i].score)
      && (forall c :: c in cands && c.color in HeckColors ==> HasColor(hecks, c.color))
  {
    HecksBest(cands);
    HecksComplete(cands);
  }

  lemma {:induction false} HecksBest(cands: seq<Candidate>)
    ensures var hecks := PickHecks(SortDesc(cands, CandScore), {});
      forall i, c :: 0 <= i < |hecks| && c in cands && c.color == hecks[i].color ==> c.score <= hecks[i].score
  {
    var sorted := SortDesc(cands, CandScore);
    var hecks := PickHecks(sorted, {});
    PickHecksFirst(sorted, {});
    forall i, c | 0 <= i < |hecks| && c in cands && c.color == hecks[i].color ensures c.score <= hecks[i].score {
      InSorted(cands, c);
      FirstIsBest(sorted, hecks[i], c);
    }
  }

  lemma {:induction false} InSorted(cands: seq<Candidate>, c: Candidate)
    requires c in cands
    ensures c in SortDesc(cands, CandScore)
  {
    assert c in multiset(cands);
  }

  /** In a list sorted by score, the first candidate of a colour scores at least as high as
      any other candidate of that colour. */
  lemma {:induction false} FirstIsBest(sorted: seq<Candidate>, x: Candidate, c: Candidate)
    requires SortedDesc(sorted, CandScore) && FirstOfColor(sorted, x)
    requires c in sorted && c.color == x.color
    ensures c.score <= x.score
  {
    var k :| 0 <= k < |sorted| && sorted[k] == x && forall j :: 0 <= j < k ==> sorted[j].color != x.color;
    var j :| 0 <= j < |sorted| && sorted[j] == c;
    if j != k {
      assert k < j;
      assert CandScore(sorted[k]) >= CandScore(sorted[j]);
    }
  }

  lemma {:induction false} HecksComplete(cands: seq<Candidate>)
    ensures var hecks := PickHecks(SortDesc(cands, CandScore), {});
      forall c :: c in cands && c.color in HeckColors ==> HasColor(hecks, c.color)
  {
    var sorted := SortDesc(cands, CandScore);
    PickHecksComplete(sorted, {});
    forall c | c in cands && c.color in HeckColors ensures HasColor(PickHecks(sorted, {}), c.color) {
      assert c in multiset(sorted);
      var j :| 0 <= j < |sorted| && sorted[j] == c;
    }
  }

  /** The Front part: the Front candidates in score order, cut to four; re-sorting the
      already sorted list changes nothing. */
  lemma {:induction false} FinalFronts(cands: seq<Candidate>)
    ensures var sorted := SortDesc(cands, CandScore);
      var n := |PickHecks(sorted, {})|;
      var r := FinalSelection(cands);
      n <= |r| && |r| - n <= MaxFronts && r[..n] == PickHecks(sorted, {})
      && |r| - n == Min(MaxFronts, |Fronts(sorted)|)
      && r[n..] == Fronts(sorted)[..|r| - n]
  {
    var sorted := SortDesc(cands, CandScore);
    FrontsSorted(sorted);
    SortSortedIdentity(Fronts(sorted), CandScore);
  }
}
