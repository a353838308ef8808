/** `classify_color` of the projection-area detectors (src/color_detection_camera.py and
    src/color_detection_camera_trackbar.py, identical in both): grey and dark first, then
    six hue buckets. */
module ColorBuckets {
  datatype ColorClass = GreyWhite | DarkBlack | Red | OrangeYellow | Green | Blue | Purple | Unknown
  {
    /** The label the detector reports. */
    function Label(): string
    {
      match this
      case GreyWhite => "Grau/Weiß"
      case DarkBlack => "Dunkel/Schwarz"
      case Red => "Rot"
      case OrangeYellow => "Orange/Gelb"
      case Green => "Grün"
      case Blue => "Blau"
      case Purple => "Lila/Magenta"
      case Unknown => "Unbekannt"
    }
  }

  const MinSaturation := 50
  const MinValue := 50

  function Classify(h: int, s: int, v: int): (r: ColorClass)
    ensures s < MinSaturation <==> r == GreyWhite
    ensures s >= MinSaturation && v < MinValue <==> r == DarkBlack
  {
    if s < MinSaturation then GreyWhite
    else if v < MinValue then DarkBlack
    else if h < 15 || h > 170 then Red
    else if h < 35 then OrangeYellow
    else if h < 85 then Green
    else if h < 130 then Blue
    else if h < 170 then Purple
    else Unknown
  }

  /** The hue buckets as a table of half-open ranges `[lo, hi)` over the hues 0 .. 179. */
  datatype Bucket = Bucket(lo: int, hi: int, colorClass: ColorClass)

  const HueTable: seq<Bucket> := [
    Bucket(0, 15, Red), Bucket(15, 35, OrangeYellow), Bucket(35, 85, Green),
    Bucket(85, 130, Blue), Bucket(130, 170, Purple), Bucket(170, 171, Unknown), Bucket(171, 180, Red)
  ]

  /** The table's ranges tile 0 .. 179 without gaps or overlaps. */
  lemma {:induction false} HueTableTiles()
    ensures HueTable[0].lo == 0 && HueTable[|HueTable| - 1].hi == 180
    ensures forall i :: 0 <= i < |HueTable| - 1 ==> HueTable[i].hi == HueTable[i + 1].lo
    ensures forall i :: 0 <= i < |HueTable| ==> HueTable[i].lo < HueTable[i].hi
  {
  }

  /** For a saturated, bright pixel the class is the class of the table row holding its hue. */
  lemma {:induction false} ClassifyByTable(h: int, s: int, v: int, i: int)
    requires s >= MinSaturation && v >= MinValue
    requires 0 <= i < |HueTable| && HueTable[i].lo <= h < HueTable[i].hi
    ensures Classify(h, s, v) == HueTable[i].colorClass
  {
  }

  /** Only the single hue 170 of a saturated, bright pixel is left unclassified. */
  lemma {:induction false} UnknownOnlyAt170(h: int, s: int, v: int)
    ensures Classify(h, s, v) == Unknown <==> s >= MinSaturation && v >= MinValue && h == 170
  {
  }
}
