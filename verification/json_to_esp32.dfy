/** The coordinate relay (src/json_to_esp32.cpp): a line-oriented reader of the camera's
    coordinates.json, the fixed four-entry Heck table built from it and the command-line options.
    File access, the UART transfer and the monitoring loop are not modelled. */
module JsonToEsp32 {
  import opened Wrappers
  import opened Text

  /** `SimpleJSONParser::CoordinateData` with its defaults. */
  datatype CoordinateData = CoordinateData(color: string, x: real, y: real, hasX: bool, hasY: bool, area: real)

  const EmptyData: CoordinateData := CoordinateData("", -1.0, -1.0, false, false, 0.0)

  /** The loop state of `parseCoordinatesFromFile`. */
  datatype Reader = Reader(current: CoordinateData, inObject: bool, records: seq<CoordinateData>)

  const Start: Reader := Reader(EmptyData, false, [])

  /** The two `erase` calls that strip spaces and tabs from both ends of a line. */
  function TrimLine(line: string): (r: string)
    ensures |r| <= |line|
    ensures |r| > 0 ==> r[0] != ' ' && r[0] != '\t' && r[|r| - 1] != ' ' && r[|r| - 1] != '\t'
  {
    TrimBack(TrimFront(line, " \t"), " \t")
  }

  /** A one-character pattern occurs exactly where that character stands. */
  lemma {:induction false} OccursChar(s: string, ch: char, k: nat)
    ensures OccursAt(s, [ch], k) <==> k < |s| && s[k] == ch
  {
    if k < |s| {
      assert s[k..k + 1] == [s[k]];
    }
  }

  /** Where `line.find(":") + 1` points: after the first colon, or 0 when there is none
      (`npos + 1` wraps). */
  function AfterColon(line: string): (r: nat)
    ensures r > 0 ==> r - 1 < |line| && line[r - 1] == ':' && forall k :: 0 <= k < r - 1 ==> line[k] != ':'
    ensures r == 0 ==> forall k :: 0 <= k < |line| ==> line[k] != ':'
  {
    match Find(line, ":")
    case None =>
      forall k | 0 <= k < |line| ensures line[k] != ':' { OccursChar(line, ':', k); }
      0
    case Some(colon) =>
      OccursChar(line, ':', colon);
      forall k | 0 <= k < colon ensures line[k] != ':' { OccursChar(line, ':', k); }
      colon + 1
  }

  /** Where the colour text starts: after the first quote following the first colon, or 0
      when no quote follows (`npos + 1` wraps again). */
  function ColorStart(line: string): (r: nat)
    ensures r > 0 ==> AfterColon(line) < r <= |line| && line[r - 1] == '"'
    ensures r > 0 ==> forall k :: AfterColon(line) <= k < r - 1 ==> line[k] != '"'
    ensures r == 0 ==> forall k :: AfterColon(line) <= k < |line| ==> line[k] != '"'
  {
    var from := AfterColon(line);
    match FindFrom(line, "\"", from)
    case None =>
      forall k | from <= k < |line| ensures line[k] != '"' { OccursChar(line, '"', k); }
      0
    case Some(q) =>
      OccursChar(line, '"', q);
      forall k | from <= k < q ensures line[k] != '"' { OccursChar(line, '"', k); }
      q + 1
  }

  /** The colour of a `"color":` line: the text from `ColorStart` up to the next quote, which
      must exist. When no quote follows the colon, the start wraps to 0 and the text before
      the line's first quote is taken. */
  function ColorValue(line: string): (r: Option<string>)
    ensures r.Some? ==> var start := ColorStart(line);
      && start + |r.value| < |line|
      && line[start..start + |r.value|] == r.value
      && line[start + |r.value|] == '"'
      && '"' !in r.value
    ensures r.None? ==> forall k :: ColorStart(line) <= k < |line| ==> line[k] != '"'
  {
    var start := ColorStart(line);
    match FindFrom(line, "\"", start)
    case None =>
      forall k | start <= k < |line| ensures line[k] != '"' { OccursChar(line, '"', k); }
      None
    case Some(end) =>
      OccursChar(line, '"', end);
      forall k | start <= k < end ensures line[k] != '"' { OccursChar(line, '"', k); }
      assert forall k :: 0 <= k < end - start ==> line[start..end][k] == line[start + k];
      Some(line[start..end])
  }

  /** The number of a `"key": value` line: the text after the first colon, stripped of
      leading spaces/tabs and trailing spaces/tabs/commas, read by `std::stof`. */
  function FieldValue(line: string, key: string): (r: Option<real>)
    ensures r.Some? ==> Contains(line, key)
  {
    if !Contains(line, key) then None
    else match Find(line, ":")
      case None => None
      case Some(colon) => Stof(TrimBack(TrimFront(line[colon + 1..], " \t"), " \t,"))
  }

  /** A `"color":` line opens an object and records its colour. */
  function OpenObject(st: Reader, line: string): (r: Reader)
    ensures r.records == st.records
    ensures r.current.(color := st.current.color) == st.current
    ensures r != st ==> r.inObject && Contains(line, "\"color\":")
  {
    if !Contains(line, "\"color\":") then st
    else match ColorValue(line)
      case Some(c) => st.(current := st.current.(color := c), inObject := true)
      case None => st
  }

  /** While an object is open, `x`, `y` and `area` lines set their field; `hasX`/`hasY`
      are set only when the number was read. */
  function ReadFields(st: Reader, line: string): (r: Reader)
    ensures r.records == st.records && r.inObject == st.inObject
    ensures r.current.color == st.current.color
    ensures !st.inObject ==> r == st
    ensures r.current.hasX != st.current.hasX ==> r.current.hasX && FieldValue(line, "\"x\":").Some?
    ensures r.current.hasY != st.current.hasY ==> r.current.hasY && FieldValue(line, "\"y\":").Some?
  {
    if !st.inObject then st
    else
      var c := st.current;
      var c1 := match FieldValue(line, "\"x\":") case Some(x) => c.(x := x, hasX := true) case None => c;
      var c2 := match FieldValue(line, "\"y\":") case Some(y) => c1.(y := y, hasY := true) case None => c1;
      var c3 := match FieldValue(line, "\"area\":") case Some(a) => c2.(area := a) case None => c2;
      st.(current := c3)
  }

  /** A line holding `}` closes an open object: it is kept when its colour is non-empty,
      and the reader starts afresh. */
  function CloseObject(st: Reader, line: string): (r: Reader)
    ensures |st.records| <= |r.records| <= |st.records| + 1
    ensures r.records[..|st.records|] == st.records
    ensures |r.records| > |st.records| ==> r.records[|st.records|] == st.current && st.current.color != ""
    ensures st.inObject && Contains(line, "}") ==> r == Reader(EmptyData, false, r.records)
    ensures !(st.inObject && Contains(line, "}")) ==> r == st
  {
    if st.inObject && Contains(line, "}") then
      Reader(EmptyData, false, st.records + (if st.current.color != "" then [st.current] else []))
    else st
  }

  /** One line of the reader loop. */
  function ReadLine(st: Reader, raw: string): (r: Reader)
    ensures |st.records| <= |r.records| <= |st.records| + 1
    ensures r.records[..|st.records|] == st.records
    ensures |r.records| > |st.records| ==> r.records[|st.records|].color != ""
  {
    var line := TrimLine(raw);
    CloseObject(ReadFields(OpenObject(st, line), line), line)
  }

  /** Every record carries a colour. */
  predicate AllColored(recs: seq<CoordinateData>)
  {
    forall i :: 0 <= i < |recs| ==> recs[i].color != ""
  }

  lemma {:induction false} ReadLineColored(st: Reader, raw: string)
    requires AllColored(st.records)
    ensures AllColored(ReadLine(st, raw).records)
  {
    var r := ReadLine(st, raw);
    forall i | 0 <= i < |r.records| ensures r.records[i].color != "" {
      if i < |st.records| {
        assert r.records[i] == r.records[..|st.records|][i];
      }
    }
  }

  function ReadLines(st: Reader, lines: seq<string>): (r: Reader)
    ensures |st.records| <= |r.records| <= |st.records| + |lines|
    ensures r.records[..|st.records|] == st.records
    ensures AllColored(st.records) ==> AllColored(r.records)
    decreases |lines|
  {
    if |lines| == 0 then st
    else
      var next := ReadLine(st, lines[0]);
      var r := ReadLines(next, lines[1..]);
      assert r.records[..|st.records|] == next.records[..|st.records|] by {
        assert r.records[..|next.records|] == next.records;
      }
      if AllColored(st.records) then ReadLineColored(st, lines[0]); r else r
  }

  /** `parseCoordinatesFromFile` over the lines of the file. */
  function ParseCoordinates(lines: seq<string>): (r: seq<CoordinateData>)
    ensures |r| <= |lines|
    ensures AllColored(r)
  {
    ReadLines(Start, lines).records
  }

  /** A pattern holding a character the text lacks does not occur in the text. */
  lemma {:induction false} AbsentChar(l: string, pat: string, ch: char)
    requires ch in pat && ch !in l
    ensures !Contains(l, pat)
  {
  }

  /** Indentation with spaces is stripped. */
  lemma {:induction false} TrimIndented(n: nat, body: string)
    requires |body| > 0 && body[0] !in " \t" && body[|body| - 1] !in " \t"
    ensures TrimLine(Spaces(n) + body) == body
  {
    TrimFrontOfIndented(n, body);
    assert TrimBack(body, " \t") == body;
  }

  lemma {:induction false} TrimFrontOfIndented(n: nat, body: string)
    requires |body| > 0 && body[0] !in " \t"
    ensures TrimFront(Spaces(n) + body, " \t") == body
  {
    var s := Spaces(n) + body;
    var r := TrimFront(s, " \t");
    var p := |s| - |r|;
    assert s[n] == body[0];
    assert p <= n;
    assert |r| > 0 && r[0] == s[p];
    assert s[n..] == body;
  }

  function Spaces(n: nat): (r: string)
    ensures |r| == n && forall i :: 0 <= i < n ==> r[i] == ' '
  {
    if n == 0 then "" else " " + Spaces(n - 1)
  }

  /** The text of a number as the camera's JSON writer prints it: digits, points and a sign,
      ending in a digit, and read by `std::stof` as `v`. */
  predicate NumberText(t: string, v: real)
  {
    |t| > 0 && IsDigit(t[|t| - 1]) && Stof(t) == Some(v)
    && forall i :: 0 <= i < |t| ==> IsDigit(t[i]) || t[i] == '.' || t[i] == '-'
  }

  /** A colour name free of the characters the reader's keys and delimiters are built from. */
  predicate PlainColor(c: string)
  {
    forall i :: 0 <= i < |c| ==> c[i] !in "\":}axyl"
  }

  /** The lines json.dump(indent=2) writes for one entry of the camera's `objects` list
      (src/Farberkennung.py:597-610): the coordinates are nested in their own object. */
  function WrittenObject(id: nat, c: string, xs: string, ys: string, area: string, last: bool): (r: seq<string>)
    ensures |r| == 9
  {
    HeadLines(id, c) + CoordinateLines(xs, ys) + TailLines(area, last)
  }

  /** The object's opening brace, id and colour. */
  function HeadLines(id: nat, c: string): (r: seq<string>)
    ensures |r| == 3
  {
    [ Spaces(4) + "{",
      Spaces(6) + ("\"id\": " + NatToString(id) + ","),
      Spaces(6) + ("\"color\": \"" + c + "\",") ]
  }

  /** The nested coordinates object. */
  function CoordinateLines(xs: string, ys: string): (r: seq<string>)
    ensures |r| == 4
  {
    [ Spaces(6) + "\"coordinates\": {",
      Spaces(8) + ("\"x\":" + " " + xs + ","),
      Spaces(8) + ("\"y\":" + " " + ys + ""),
      Spaces(6) + "}," ]
  }

  /** The area and the object's closing brace. */
  function TailLines(area: string, last: bool): (r: seq<string>)
    ensures |r| == 2
  {
    [ Spaces(6) + ("\"area\": " + area),
      Spaces(4) + (if last then "}" else "},") ]
  }

  /** Reading two blocks of lines is reading the first, then the second. */
  lemma {:induction false} ReadLinesAppend(st: Reader, a: seq<string>, b: seq<string>)
    ensures ReadLines(st, a + b) == ReadLines(ReadLines(st, a), b)
    decreases |a|
  {
    if |a| == 0 {
      assert a + b == b;
    } else {
      assert (a + b)[0] == a[0] && (a + b)[1..] == a[1..] + b;
      ReadLinesAppend(ReadLine(st, a[0]), a[1..], b);
    }
  }

  lemma {:induction false} ReadLinesCons(st: Reader, l: string, rest: seq<string>)
    ensures ReadLines(st, [l] + rest) == ReadLines(ReadLine(st, l), rest)
  {
    assert ([l] + rest)[1..] == rest;
  }

  /** A line without a colour key leaves a closed reader as it is. */
  lemma {:induction false} ClosedQuietLine(st: Reader, raw: string)
    requires !st.inObject && !Contains(TrimLine(raw), "\"color\":")
    ensures ReadLine(st, raw) == st
  {
  }

  lemma {:induction false} ColorLineValue(l: string, c: string)
    requires PlainColor(c) && l == "\"color\": \"" + c + "\","
    ensures ColorValue(l) == Some(c)
  {
    assert l[7..8] == [l[7]] == ":";
    assert OccursAt(l, ":", 7);
    forall k | 0 <= k < 7 ensures !OccursAt(l, ":", k) { assert l[k..k + 1] == [l[k]]; }
    assert l[9..10] == [l[9]] == "\"";
    assert !OccursAt(l, "\"", 8) by { assert l[8..9] == [l[8]]; }
    assert l[10 + |c|..11 + |c|] == [l[10 + |c|]] == "\"";
    assert OccursAt(l, "\"", 10 + |c|);
    forall k | 10 <= k < 10 + |c| ensures !OccursAt(l, "\"", k) {
      assert l[k..k + 1] == [l[k]];
      assert l[k] == c[k - 10];
    }
    assert l[10..10 + |c|] == c;
    assert Find(l, ":") == Some(7);
    assert FindFrom(l, "\"", 8) == Some(9);
    assert FindFrom(l, "\"", 10) == Some(10 + |c|);
  }

  lemma {:induction false} ColorLineKeys(l: string, c: string)
    requires PlainColor(c) && l == "\"color\": \"" + c + "\","
    ensures Contains(l, "\"color\":")
    ensures !Contains(l, "\"x\":") && !Contains(l, "\"y\":") && !Contains(l, "\"area\":") && !Contains(l, "}")
  {
    assert l[0..8] == "\"color\":";
    assert OccursAt(l, "\"color\":", 0);
    forall i | 0 <= i < |l| ensures l[i] != 'x' && l[i] != 'y' && l[i] != 'a' && l[i] != '}' {
      if 10 <= i < 10 + |c| {
        assert l[i] == c[i - 10];
      }
    }
    AbsentChar(l, "\"x\":", 'x');
    AbsentChar(l, "\"y\":", 'y');
    AbsentChar(l, "\"area\":", 'a');
    AbsentChar(l, "}", '}');
  }

  lemma {:induction false} ColorLineOpens(recs: seq<CoordinateData>, c: string)
    requires PlainColor(c)
    ensures ReadLine(Reader(EmptyData, false, recs), Spaces(6) + ("\"color\": \"" + c + "\","))
         == Reader(EmptyData.(color := c), true, recs)
  {
    var l := "\"color\": \"" + c + "\",";
    TrimIndented(6, l);
    ColorLineValue(l, c);
    ColorLineKeys(l, c);
  }

  lemma {:induction false} TrimKeepsAbsent(raw: string, ch: char)
    requires ch !in raw
    ensures ch !in TrimLine(raw)
  {
    var f := TrimFront(raw, " \t");
    assert forall i :: 0 <= i < |f| ==> f[i] == raw[|raw| - |f| + i];
    var b := TrimBack(f, " \t");
    assert forall i :: 0 <= i < |b| ==> b[i] == f[i];
  }

  /** A line without the letter `c` cannot hold the colour key and leaves a closed reader alone. */
  lemma {:induction false} ClosedLineWithoutC(st: Reader, raw: string)
    requires !st.inObject && 'c' !in raw
    ensures ReadLine(st, raw) == st
  {
    TrimKeepsAbsent(raw, 'c');
    AbsentChar(TrimLine(raw), "\"color\":", 'c');
  }

  lemma {:induction false} CoordinatesLineKeys(l: string)
    requires l == "\"coordinates\": {"
    ensures !Contains(l, "\"color\":") && !Contains(l, "\"x\":") && !Contains(l, "\"y\":") && !Contains(l, "}")
  {
    CoordinatesLineLacks(l, 'l');
    AbsentChar(l, "\"color\":", 'l');
    CoordinatesLineLacks(l, 'x');
    AbsentChar(l, "\"x\":", 'x');
    CoordinatesLineLacks(l, 'y');
    AbsentChar(l, "\"y\":", 'y');
    CoordinatesLineLacks(l, '}');
    AbsentChar(l, "}", '}');
  }

  lemma {:induction false} CoordinatesLineLacks(l: string, ch: char)
    requires l == "\"coordinates\": {"
    requires ch == 'l' || ch == 'x' || ch == 'y' || ch == '}'
    ensures ch !in l
  {
    assert l[1] == 'c' && l[2] == 'o' && l[3] == 'o' && l[4] == 'r' && l[5] == 'd' && l[6] == 'i' && l[7] == 'n';
    assert l[8] == 'a' && l[9] == 't' && l[10] == 'e' && l[11] == 's' && l[12] == '"' && l[13] == ':';
    assert l[14] == ' ' && l[15] == '{' && l[0] == '"' && |l| == 16;
  }

  lemma {:induction false} CoordinatesLineColon(l: string)
    requires l == "\"coordinates\": {"
    ensures Find(l, ":") == Some(13)
  {
    assert l[13..14] == [l[13]] == ":";
    assert OccursAt(l, ":", 13);
    forall k | 0 <= k < 13 ensures !OccursAt(l, ":", k) { assert l[k..k + 1] == [l[k]]; }
  }

  /** Text without a digit is not a number. */
  lemma {:induction false} NoDigitNoNumber(t: string)
    requires forall k :: 0 <= k < |t| ==> !IsDigit(t[k])
    ensures Stof(t) == None
  {
  }

  lemma {:induction false} CoordinatesLineArea(l: string)
    requires l == "\"coordinates\": {"
    ensures FieldValue(l, "\"area\":") == None
  {
    CoordinatesLineColon(l);
    assert l[14..] == " {";
    TrimOneSpace("{");
    assert TrimBack("{", " \t,") == "{";
    NoDigitNoNumber("{");
  }

  /** The nested `"coordinates": {` line changes nothing: its value is not a number. */
  lemma {:induction false} CoordinatesLineQuiet(st: Reader)
    requires st.inObject
    ensures ReadLine(st, Spaces(6) + "\"coordinates\": {") == st
  {
    var l := "\"coordinates\": {";
    TrimIndented(6, l);
    CoordinatesLineKeys(l);
    CoordinatesLineArea(l);
  }

  lemma {:induction false} NumberTextFacts(t: string, v: real)
    requires NumberText(t, v)
    ensures forall ch :: ch in "\":}axyl, \t" ==> ch !in t
    ensures t[0] != ' ' && t[0] != '\t'
  {
    assert IsDigit(t[0]) || t[0] == '.' || t[0] == '-';
  }

  lemma {:induction false} NumberLineColon(key: string, t: string, tail: string)
    requires key == "\"x\":" || key == "\"y\":"
    ensures Find(key + " " + t + tail, ":") == Some(3)
    ensures (key + " " + t + tail)[4..] == " " + t + tail
    ensures OccursAt(key + " " + t + tail, key, 0)
  {
    var l := key + " " + t + tail;
    assert l[0..4] == key;
    assert l[3..4] == [l[3]] == ":";
    assert OccursAt(l, ":", 3);
    forall k | 0 <= k < 3 ensures !OccursAt(l, ":", k) { assert l[k..k + 1] == [l[k]]; }
  }

  lemma {:induction false} TrimOneSpace(u: string)
    requires |u| > 0 && u[0] != ' ' && u[0] != '\t'
    ensures TrimFront(" " + u, " \t") == u
  {
    assert (" " + u)[1..] == u;
  }

  lemma {:induction false} TrimCommaTail(t: string, tail: string)
    requires |t| > 0 && t[|t| - 1] !in " \t,"
    requires tail == "" || tail == ","
    ensures TrimBack(t + tail, " \t,") == t
  {
    if tail == "," {
      assert (t + tail)[..|t + tail| - 1] == t;
    } else {
      assert t + tail == t;
    }
  }

  lemma {:induction false} NumberTextTrimmed(t: string, tail: string)
    requires |t| > 0 && t[0] != ' ' && t[0] != '\t' && IsDigit(t[|t| - 1])
    requires tail == "" || tail == ","
    ensures TrimBack(TrimFront(" " + t + tail, " \t"), " \t,") == t
  {
    var u := t + tail;
    assert " " + t + tail == " " + u;
    assert u[0] == t[0];
    TrimOneSpace(u);
    var d := t[|t| - 1];
    assert '0' <= d <= '9';
    assert d !in " \t,";
    TrimCommaTail(t, tail);
  }

  lemma {:induction false} NumberLineValue(key: string, t: string, v: real, tail: string)
    requires key == "\"x\":" || key == "\"y\":"
    requires NumberText(t, v) && (tail == "" || tail == ",")
    ensures FieldValue(key + " " + t + tail, key) == Some(v)
  {
    NumberLineColon(key, t, tail);
    NumberTextFacts(t, v);
    NumberTextTrimmed(t, tail);
  }

  lemma {:induction false} NumberLineKeys(key: string, t: string, v: real, tail: string)
    requires key == "\"x\":" || key == "\"y\":"
    requires NumberText(t, v) && (tail == "" || tail == ",")
    ensures !Contains(key + " " + t + tail, "\"color\":") && !Contains(key + " " + t + tail, "\"area\":")
    ensures !Contains(key + " " + t + tail, "}")
    ensures key == "\"x\":" ==> !Contains(key + " " + t + tail, "\"y\":")
    ensures key == "\"y\":" ==> !Contains(key + " " + t + tail, "\"x\":")
  {
    var l := key + " " + t + tail;
    NumberTextFacts(t, v);
    forall i | 0 <= i < |l| ensures l[i] !in "c}a" && (key == "\"x\":" ==> l[i] != 'y') && (key == "\"y\":" ==> l[i] != 'x') {
      if 5 <= i < 5 + |t| {
        assert l[i] == t[i - 5];
      }
    }
    AbsentChar(l, "\"color\":", 'c');
    AbsentChar(l, "\"area\":", 'a');
    AbsentChar(l, "}", '}');
    if key == "\"x\":" {
      AbsentChar(l, "\"y\":", 'y');
    } else {
      AbsentChar(l, "\"x\":", 'x');
    }
  }

  /** A `"x":` or `"y":` line inside an object sets that coordinate and marks it present. */
  lemma {:induction false} NumberLineSets(st: Reader, key: string, t: string, v: real, tail: string)
    requires st.inObject
    requires key == "\"x\":" || key == "\"y\":"
    requires NumberText(t, v) && (tail == "" || tail == ",")
    ensures ReadLine(st, Spaces(8) + (key + " " + t + tail)) ==
      if key == "\"x\":" then st.(current := st.current.(x := v, hasX := true))
      else st.(current := st.current.(y := v, hasY := true))
  {
    var l := key + " " + t + tail;
    NumberLineTrimmed(key, t, v, tail);
    NumberLineKeys(key, t, v, tail);
    NumberLineFields(st, key, t, v, tail);
  }

  lemma {:induction false} NumberLineTrimmed(key: string, t: string, v: real, tail: string)
    requires key == "\"x\":" || key == "\"y\":"
    requires NumberText(t, v) && (tail == "" || tail == ",")
    ensures TrimLine(Spaces(8) + (key + " " + t + tail)) == key + " " + t + tail
  {
    var l := key + " " + t + tail;
    assert l[0] == '"';
    if tail == "," {
      assert l[|l| - 1] == ',';
    } else {
      assert l[|l| - 1] == t[|t| - 1];
      NumberTextFacts(t, v);
    }
    TrimIndented(8, l);
  }

  lemma {:induction false} NumberLineFields(st: Reader, key: string, t: string, v: real, tail: string)
    requires st.inObject
    requires key == "\"x\":" || key == "\"y\":"
    requires NumberText(t, v) && (tail == "" || tail == ",")
    ensures ReadFields(st, key + " " + t + tail) ==
      if key == "\"x\":" then st.(current := st.current.(x := v, hasX := true))
      else st.(current := st.current.(y := v, hasY := true))
  {
    NumberLineValue(key, t, v, tail);
    NumberLineKeys(key, t, v, tail);
  }

  /** The inner `},` that ends the nested coordinates object already closes the record. */
  lemma {:induction false} InnerCloseLine(st: Reader)
    requires st.inObject
    ensures ReadLine(st, Spaces(6) + "},") ==
      Reader(EmptyData, false, st.records + (if st.current.color != "" then [st.current] else []))
  {
    var l := "},";
    TrimIndented(6, l);
    assert OccursAt(l, "}", 0);
    AbsentChar(l, "\"color\":", '"');
    AbsentChar(l, "\"x\":", '"');
    AbsentChar(l, "\"y\":", '"');
    AbsentChar(l, "\"area\":", '"');
  }

  lemma {:induction false} IdLineWithoutC(id: nat)
    ensures 'c' !in Spaces(6) + ("\"id\": " + NatToString(id) + ",")
  {
    var n := NatToString(id);
    var l := Spaces(6) + ("\"id\": " + n + ",");
    forall i | 0 <= i < |l| ensures l[i] != 'c' {
      if 12 <= i < 12 + |n| {
        assert l[i] == n[i - 12];
      }
    }
  }

  lemma {:induction false} ReadsObjectHead(recs: seq<CoordinateData>, id: nat, c: string)
    requires PlainColor(c)
    ensures ReadLines(Reader(EmptyData, false, recs), HeadLines(id, c)) == Reader(EmptyData.(color := c), true, recs)
  {
    var l0, l1, l2 := Spaces(4) + "{", Spaces(6) + ("\"id\": " + NatToString(id) + ","), Spaces(6) + ("\"color\": \"" + c + "\",");
    var s0 := Reader(EmptyData, false, recs);
    var s1 := Reader(EmptyData.(color := c), true, recs);
    assert HeadLines(id, c) == [l0] + ([l1] + ([l2] + []));
    assert 'c' !in l0;
    ClosedLineWithoutC(s0, l0);
    IdLineWithoutC(id);
    ClosedLineWithoutC(s0, l1);
    ColorLineOpens(recs, c);
    ReadLinesCons(s0, l0, [l1] + ([l2] + []));
    ReadLinesCons(s0, l1, [l2] + []);
    ReadLinesCons(s0, l2, []);
  }

  lemma {:induction false} ReadsObjectCoordinates(st: Reader, xs: string, xv: real, ys: string, yv: real)
    requires st.inObject && st.current.color != ""
    requires NumberText(xs, xv) && NumberText(ys, yv)
    ensures ReadLines(st, CoordinateLines(xs, ys)) ==
      Reader(EmptyData, false, st.records + [st.current.(x := xv, hasX := true, y := yv, hasY := true)])
  {
    var l0, l1 := Spaces(6) + "\"coordinates\": {", Spaces(8) + ("\"x\":" + " " + xs + ",");
    var l2, l3 := Spaces(8) + ("\"y\":" + " " + ys + ""), Spaces(6) + "},";
    var s2 := st.(current := st.current.(x := xv, hasX := true));
    var s3 := s2.(current := s2.current.(y := yv, hasY := true));
    assert CoordinateLines(xs, ys) == [l0] + ([l1] + ([l2] + ([l3] + [])));
    CoordinatesLineQuiet(st);
    NumberLineSets(st, "\"x\":", xs, xv, ",");
    NumberLineSets(s2, "\"y\":", ys, yv, "");
    InnerCloseLine(s3);
    ReadLinesCons(st, l0, [l1] + ([l2] + ([l3] + [])));
    ReadLinesCons(st, l1, [l2] + ([l3] + []));
    ReadLinesCons(s2, l2, [l3] + []);
    ReadLinesCons(s3, l3, []);
  }

  lemma {:induction false} ReadsObjectTail(st: Reader, area: string, last: bool)
    requires !st.inObject && 'c' !in area
    ensures ReadLines(st, TailLines(area, last)) == st
  {
    var l0, l1 := Spaces(6) + ("\"area\": " + area), Spaces(4) + (if last then "}" else "},");
    assert TailLines(area, last) == [l0] + ([l1] + []);
    assert 'c' !in l0 by {
      forall i | 0 <= i < |l0| ensures l0[i] != 'c' {
        if 14 <= i { assert l0[i] == area[i - 14]; }
      }
    }
    ClosedLineWithoutC(st, l0);
    assert 'c' !in l1;
    ClosedLineWithoutC(st, l1);
    ReadLinesCons(st, l0, [l1] + []);
    ReadLinesCons(st, l1, []);
  }

  /** Reading back one object as the camera writes it yields one record with the colour and
      both coordinates present, but an area of 0: the nested coordinates object's `},` closes
      the record before the `"area":` line is reached. */
  lemma {:induction false} ReadsWrittenObject(recs: seq<CoordinateData>, id: nat, c: string,
                                              xs: string, xv: real, ys: string, yv: real,
                                              area: string, last: bool)
    requires c != "" && PlainColor(c)
    requires NumberText(xs, xv) && NumberText(ys, yv) && 'c' !in area
    ensures ReadLines(Reader(EmptyData, false, recs), WrittenObject(id, c, xs, ys, area, last))
         == Reader(EmptyData, false, recs + [CoordinateData(c, xv, yv, true, true, 0.0)])
  {
    var h, m, t := HeadLines(id, c), CoordinateLines(xs, ys), TailLines(area, last);
    var s0 := Reader(EmptyData, false, recs);
    var s1 := Reader(EmptyData.(color := c), true, recs);
    var s2 := Reader(EmptyData, false, recs + [CoordinateData(c, xv, yv, true, true, 0.0)]);
    assert WrittenObject(id, c, xs, ys, area, last) == h + (m + t);
    ReadLinesAppend(s0, h, m + t);
    ReadsObjectHead(recs, id, c);
    ReadLinesAppend(s1, m, t);
    ReadsObjectCoordinates(s1, xs, xv, ys, yv);
    ReadsObjectTail(s2, area, last);
  }

  /** One entry of the table handed to the UART sender. */
  datatype HeckCoordinate = HeckCoordinate(heckId: string, x: real, y: real, isValid: bool)

  const ExpectedHecks: seq<string> := ["Heck1", "Heck2", "Heck3", "Heck4"]

  /** The `foundHecks` map: records whose colour starts with "Heck", a later one replacing
      an earlier one of the same colour. */
  function FoundHecks(recs: seq<CoordinateData>): (m: map<string, CoordinateData>)
    ensures forall name :: name in m ==> m[name].color == name
    decreases |recs|
  {
    if |recs| == 0 then map[]
    else
      var m := FoundHecks(recs[..|recs| - 1]);
      var d := recs[|recs| - 1];
      if Find(d.color, "Heck") == Some(0) then m[d.color := d] else m
  }

  /** `i` is the last position holding a record of colour `name`. */
  predicate LastWith(recs: seq<CoordinateData>, name: string, i: int)
  {
    0 <= i < |recs| && recs[i].color == name
    && forall j :: i < j < |recs| ==> recs[j].color != name
  }

  /** The map holds exactly the "Heck" colours that occur, each with its last record. */
  lemma {:induction false} FoundHecksLastWins(recs: seq<CoordinateData>, name: string)
    ensures name in FoundHecks(recs) <==>
      StartsWith(name, "Heck") && exists i :: 0 <= i < |recs| && recs[i].color == name
    ensures name in FoundHecks(recs) ==> exists i :: LastWith(recs, name, i) && FoundHecks(recs)[name] == recs[i]
  {
    FoundHecksMembers(recs, name);
    FoundHecksLast(recs, name);
  }

  lemma {:induction false} FoundHecksMembers(recs: seq<CoordinateData>, name: string)
    ensures name in FoundHecks(recs) <==>
      StartsWith(name, "Heck") && exists i :: 0 <= i < |recs| && recs[i].color == name
    decreases |recs|
  {
    StartsWithIsFindZero(name, "Heck");
    if |recs| > 0 {
      var init := recs[..|recs| - 1];
      var d := recs[|recs| - 1];
      FoundHecksMembers(init, name);
      StartsWithIsFindZero(d.color, "Heck");
      if d.color != name {
        if exists i :: 0 <= i < |recs| && recs[i].color == name {
          var i :| 0 <= i < |recs| && recs[i].color == name;
          assert init[i] == recs[i];
        }
        if exists i :: 0 <= i < |init| && init[i].color == name {
          var i :| 0 <= i < |init| && init[i].color == name;
          assert init[i] == recs[i];
        }
      }
    }
  }

  lemma {:induction false} FoundHecksLast(recs: seq<CoordinateData>, name: string)
    ensures name in FoundHecks(recs) ==> exists i :: LastWith(recs, name, i) && FoundHecks(recs)[name] == recs[i]
    decreases |recs|
  {
    if |recs| > 0 && name in FoundHecks(recs) {
      var init := recs[..|recs| - 1];
      var d := recs[|recs| - 1];
      if d.color == name {
        FoundHecksMembers(init, name);
        StartsWithIsFindZero(name, "Heck");
        assert FoundHecks(recs)[name] == d;
        LastAtEnd(recs, name);
      } else {
        assert name in FoundHecks(init) && FoundHecks(recs)[name] == FoundHecks(init)[name];
        FoundHecksLast(init, name);
        var i :| LastWith(init, name, i) && FoundHecks(init)[name] == init[i];
        LastWithExtend(recs, name, i);
      }
    }
  }

  lemma {:induction false} LastAtEnd(recs: seq<CoordinateData>, name: string)
    requires |recs| > 0 && recs[|recs| - 1].color == name
    ensures LastWith(recs, name, |recs| - 1)
  {
  }

  /** A later record of another colour leaves the last position of `name` where it was. */
  lemma {:induction false} LastWithExtend(recs: seq<CoordinateData>, name: string, i: int)
    requires |recs| > 0 && recs[|recs| - 1].color != name
    requires LastWith(recs[..|recs| - 1], name, i)
    ensures LastWith(recs, name, i) && recs[..|recs| - 1][i] == recs[i]
  {
    var init := recs[..|recs| - 1];
    forall j | i < j < |recs| ensures recs[j].color != name {
      if j < |init| {
        assert init[j] == recs[j];
      }
    }
  }

  lemma LastWithUnique(recs: seq<CoordinateData>, name: string, i: int, j: int)
    requires LastWith(recs, name, i) && LastWith(recs, name, j)
    ensures i == j
  {
  }

  /** One table entry: the found record's coordinates when both were read, else (-1, -1). */
  function HeckEntry(found: map<string, CoordinateData>, id: string): (r: HeckCoordinate)
    ensures r.heckId == id
    ensures r.isValid <==> id in found && found[id].hasX && found[id].hasY
    ensures r.isValid ==> r.x == found[id].x && r.y == found[id].y
    ensures !r.isValid ==> r.x == -1.0 && r.y == -1.0
  {
    if id in found && found[id].hasX && found[id].hasY then HeckCoordinate(id, found[id].x, found[id].y, true)
    else HeckCoordinate(id, -1.0, -1.0, false)
  }

  /** `createHeckCoordinatesFromJSON` after parsing: always four entries, in order. */
  function HeckTable(recs: seq<CoordinateData>): (r: seq<HeckCoordinate>)
    ensures |r| == 4
    ensures forall i :: 0 <= i < 4 ==> r[i].heckId == ExpectedHecks[i]
  {
    var found := FoundHecks(recs);
    [HeckEntry(found, ExpectedHecks[0]), HeckEntry(found, ExpectedHecks[1]),
     HeckEntry(found, ExpectedHecks[2]), HeckEntry(found, ExpectedHecks[3])]
  }

  /** An entry is valid exactly when the last record of that colour has both coordinates,
      and then carries them. */
  lemma {:induction false} HeckTableEntry(recs: seq<CoordinateData>, k: nat)
    requires k < 4
    ensures HeckTable(recs)[k].isValid <==>
      exists i :: LastWith(recs, ExpectedHecks[k], i) && recs[i].hasX && recs[i].hasY
    ensures HeckTable(recs)[k].isValid ==>
      exists i :: LastWith(recs, ExpectedHecks[k], i) && HeckTable(recs)[k].x == recs[i].x && HeckTable(recs)[k].y == recs[i].y
    ensures !HeckTable(recs)[k].isValid ==> HeckTable(recs)[k].x == -1.0 && HeckTable(recs)[k].y == -1.0
  {
    var name := ExpectedHecks[k];
    assert StartsWith(name, "Heck") by {
      assert name[..4] == "Heck";
    }
    FoundHecksLastWins(recs, name);
    var found := FoundHecks(recs);
    if name in found {
      var i :| LastWith(recs, name, i) && found[name] == recs[i];
      forall i' | LastWith(recs, name, i') ensures i' == i {
        LastWithUnique(recs, name, i, i');
      }
    }
  }

  /** What `main` does after reading its arguments. */
  datatype Mode = Continuous | SingleShot | Help

  datatype Options = Options(file: string, port: string, mode: Mode)

  /** Neither spelling of a flag appears at positions lo .. hi-1. */
  predicate NoFlagIn(argv: seq<string>, lo: nat, hi: nat, long: string, short: string)
    requires hi <= |argv|
  {
    forall j :: lo <= j < hi ==> argv[j] != long && argv[j] != short
  }

  /** `v` is what a scan of positions 1 .. hi-1 leaves in an option spelt `long` or `short`:
      the argument after the last such flag, or the default when no flag appears. */
  predicate Latest(argv: seq<string>, hi: nat, long: string, short: string, dflt: string, v: string)
    requires hi < |argv|
  {
    (v == dflt && NoFlagIn(argv, 1, hi, long, short))
    || exists i :: 1 <= i < hi && (argv[i] == long || argv[i] == short) && v == argv[i + 1]
                   && NoFlagIn(argv, i + 1, hi, long, short)
  }

  /** One more position of the option scan: a flag takes the next argument, anything else
      leaves the value alone. */
  lemma {:induction false} LatestStep(argv: seq<string>, hi: nat, long: string, short: string, dflt: string, v: string)
    requires 1 <= hi && hi + 1 < |argv| && Latest(argv, hi, long, short, dflt, v)
    ensures argv[hi] == long || argv[hi] == short ==> Latest(argv, hi + 1, long, short, dflt, argv[hi + 1])
    ensures argv[hi] != long && argv[hi] != short ==> Latest(argv, hi + 1, long, short, dflt, v)
  {
    if argv[hi] == long || argv[hi] == short {
      assert NoFlagIn(argv, hi + 1, hi + 1, long, short);
    } else if v == dflt && NoFlagIn(argv, 1, hi, long, short) {
      assert NoFlagIn(argv, 1, hi + 1, long, short);
    } else {
      var i :| 1 <= i < hi && (argv[i] == long || argv[i] == short) && v == argv[i + 1]
               && NoFlagIn(argv, i + 1, hi, long, short);
      assert NoFlagIn(argv, i + 1, hi + 1, long, short);
    }
  }

  /** The argument handling of `main`; `argv[0]` is the program name. */
  method ParseArgs(argv: seq<string>) returns (o: Options)
    requires |argv| >= 1
    ensures o.mode == Help <==> |argv| > 1 && (argv[1] == "--help" || argv[1] == "-h")
    ensures o.mode == SingleShot <==> |argv| > 1 && (argv[1] == "--single" || argv[1] == "-s")
    ensures o.mode != Help ==> Latest(argv, |argv| - 1, "--port", "-p", "COM4", o.port)
    ensures o.mode != Help ==> Latest(argv, |argv| - 1, "--file", "-f", "coordinates.json", o.file)
  {
    var file := "coordinates.json";
    var port := "COM4";
    var mode := Continuous;
    if |argv| > 1 {
      if argv[1] == "--single" || argv[1] == "-s" {
        mode := SingleShot;
      } else if argv[1] == "--help" || argv[1] == "-h" {
        return Options(file, port, Help);
      }
    }
    if |argv| == 1 {
      assert NoFlagIn(argv, 1, 0, "--port", "-p") && NoFlagIn(argv, 1, 0, "--file", "-f");
      return Options(file, port, mode);
    }
    var i := 1;
    assert NoFlagIn(argv, 1, 1, "--port", "-p") && NoFlagIn(argv, 1, 1, "--file", "-f");
    while i < |argv| - 1
      invariant 1 <= i <= |argv| - 1
      invariant Latest(argv, i, "--port", "-p", "COM4", port)
      invariant Latest(argv, i, "--file", "-f", "coordinates.json", file)
    {
      LatestStep(argv, i, "--port", "-p", "COM4", port);
      LatestStep(argv, i, "--file", "-f", "coordinates.json", file);
      if argv[i] == "--port" || argv[i] == "-p" {
        port := argv[i + 1];
      } else if argv[i] == "--file" || argv[i] == "-f" {
        file := argv[i + 1];
      }
      i := i + 1;
    }
    o := Options(file, port, mode);
  }
}
