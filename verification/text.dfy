/** The pieces of the C/C++ string library the command tools rely on:
    `std::to_string`, the `%d` conversion of `sscanf`, `std::stoi`, `std::stof`
    on plain decimals, `find`, `find_first_of` and the space/tab trimming idiom. */
module Text {
  import opened Wrappers

  const MinInt32: int := -0x8000_0000
  const MaxInt32: int := 0x7FFF_FFFF

  /** C `isspace` in the "C" locale: space, tab, newline, vertical tab, form feed, carriage return. */
  predicate IsSpace(c: char) { c == ' ' || ('\t' <= c <= '\r') }

  predicate IsDigit(c: char) { '0' <= c <= '9' }

  predicate AllDigits(s: string) { forall i :: 0 <= i < |s| ==> IsDigit(s[i]) }

  function DigitValue(c: char): (r: nat)
    requires IsDigit(c)
    ensures r < 10
  {
    c as int - '0' as int
  }

  function DigitChar(d: nat): (c: char)
    requires d < 10
    ensures IsDigit(c) && DigitValue(c) == d
  {
    ('0' as int + d) as char
  }

  /** The value of a run of decimal digits, most significant first. */
  function DigitsValue(s: string): nat
    requires AllDigits(s)
  {
    if |s| == 0 then 0 else DigitsValue(s[..|s| - 1]) * 10 + DigitValue(s[|s| - 1])
  }

  /** `std::to_string` of a non-negative value: the shortest decimal numeral. */
  function NatToString(n: nat): (r: string)
    ensures 1 <= |r|
    ensures AllDigits(r) && DigitsValue(r) == n
    ensures r[0] == '0' ==> r == "0"
  {
    if n < 10 then [DigitChar(n)]
    else
      var p := NatToString(n / 10);
      var r := p + [DigitChar(n % 10)];
      assert r[..|r| - 1] == p;
      r
  }

  /** `std::to_string(int)`: a leading minus sign for negative values. */
  function IntToString(i: int): (r: string)
    ensures 1 <= |r|
    ensures r[0] == '-' <==> i < 0
    ensures i >= 0 ==> AllDigits(r)
  {
    if i < 0 then "-" + NatToString(-i) else NatToString(i)
  }

  /** The digits of `IntToString(i)`, after the minus sign of a negative value, denote the
      magnitude of `i`. */
  lemma {:induction false} IntToStringValue(i: int)
    ensures var r := IntToString(i);
      var digits := if i < 0 then r[1..] else r;
      AllDigits(digits) && DigitsValue(digits) == if i < 0 then -i else i
  {
    if i < 0 {
      assert IntToString(i)[1..] == NatToString(-i);
    }
  }

  /** The first position at or after `i` that does not hold white space. */
  function SkipSpace(s: string, i: nat): (j: nat)
    requires i <= |s|
    ensures i <= j <= |s|
    ensures forall k :: i <= k < j ==> IsSpace(s[k])
    ensures j < |s| ==> !IsSpace(s[j])
    decreases |s| - i
  {
    if i == |s| || !IsSpace(s[i]) then i else SkipSpace(s, i + 1)
  }

  /** The end of the maximal digit run starting at `i`. */
  function DigitRunEnd(s: string, i: nat): (j: nat)
    requires i <= |s|
    ensures i <= j <= |s|
    ensures AllDigits(s[i..j])
    ensures j < |s| ==> !IsDigit(s[j])
    decreases |s| - i
  {
    if i == |s| || !IsDigit(s[i]) then i else DigitRunEnd(s, i + 1)
  }

  /** One `%d` conversion (equally the number `strtol` takes for `std::stoi`) starting at `i`:
      white space, an optional sign and at least one digit. Yields the value and the position after it. */
  function ScanInt(s: string, i: nat): (r: Option<(int, nat)>)
    requires i <= |s|
    ensures r.Some? ==> i < r.value.1 <= |s| && IsDigit(s[r.value.1 - 1])
    ensures r.Some? ==> r.value.1 == |s| || !IsDigit(s[r.value.1])
  {
    var a := SkipSpace(s, i);
    var signed := a < |s| && (s[a] == '-' || s[a] == '+');
    var b := if signed then a + 1 else a;
    var e := DigitRunEnd(s, b);
    if e == b then None
    else
      var m: int := DigitsValue(s[b..e]);
      Some((if signed && s[a] == '-' then -m else m, e))
  }

  /** The outcome of `sscanf(s, "%d,%d,%d", ...)`: the number of conversions stored
      (-1, i.e. EOF, when the input ends before the first one) and the values stored. */
  datatype Scan = Scan(count: int, values: seq<int>)

  function ScanThreeInts(s: string): (r: Scan)
    ensures -1 <= r.count <= 3
    ensures r.count == -1 ==> r.values == [] && SkipSpace(s, 0) == |s|
    ensures r.count >= 0 ==> |r.values| == r.count
    ensures r.count >= 1 ==> ScanInt(s, 0).Some? && r.values[0] == ScanInt(s, 0).value.0
  {
    if SkipSpace(s, 0) == |s| then Scan(-1, [])
    else match ScanInt(s, 0)
      case None => Scan(0, [])
      case Some((d, i)) => ScanAfter(s, i, [d])
  }

  /** The rest of the scan once `done` (one or two values) has been stored and the
      previous numeral ended at `i`: a comma and a numeral store one value more. */
  function ScanAfter(s: string, i: nat, done: seq<int>): (r: Scan)
    requires i <= |s| && 1 <= |done| <= 2
    ensures |done| <= r.count <= 3 && |r.values| == r.count && r.values[..|done|] == done
    decreases 3 - |done|
  {
    if !(i < |s| && s[i] == ',') then Scan(|done|, done)
    else match ScanInt(s, i + 1)
      case None => Scan(|done|, done)
      case Some((v, j)) =>
        if |done| == 2 then Scan(3, done + [v])
        else
          var r := ScanAfter(s, j, done + [v]);
          assert r.values[..|done|] == r.values[..|done| + 1][..|done|];
          r
  }

  /** `std::stoi`: the `strtol` prefix of the text; `None` where it throws
      (no digits: `invalid_argument`; outside `int`: `out_of_range`). */
  function Stoi(s: string): (r: Option<int>)
    ensures r.Some? ==> MinInt32 <= r.value <= MaxInt32
    ensures r.Some? <==> ScanInt(s, 0).Some? && MinInt32 <= ScanInt(s, 0).value.0 <= MaxInt32
  {
    match ScanInt(s, 0)
    case None => None
    case Some((n, _)) => if MinInt32 <= n <= MaxInt32 then Some(n) else None
  }

  /** Frame of three decimal fields as the senders write it: `"d,s,v\n"`. */
  function FormatThree(a: int, b: int, c: int): string
  {
    IntToString(a) + "," + IntToString(b) + "," + IntToString(c) + "\n"
  }

  /** Frame of two decimal fields: `"d,s\n"`. */
  function FormatTwo(a: int, b: int): string
  {
    IntToString(a) + "," + IntToString(b) + "\n"
  }

  lemma {:induction false} DigitRunEndAt(s: string, b: nat, e: nat)
    requires b <= e <= |s|
    requires forall k :: b <= k < e ==> IsDigit(s[k])
    requires e == |s| || !IsDigit(s[e])
    ensures DigitRunEnd(s, b) == e
    decreases e - b
  {
    if b < e {
      DigitRunEndAt(s, b + 1, e);
    }
  }

  /** A run of digits in place ends where the digits end. */
  lemma {:induction false} DigitsInPlace(s: string, b: nat, e: nat)
    requires b <= e <= |s| && AllDigits(s[b..e])
    requires e == |s| || !IsDigit(s[e])
    ensures DigitRunEnd(s, b) == e
  {
    forall k | b <= k < e ensures IsDigit(s[k]) {
      assert s[k] == s[b..e][k - b];
    }
    DigitRunEndAt(s, b, e);
  }

  lemma {:induction false} SliceAfterHead(s: string, i: nat, e: nat, u: string)
    requires i < e <= |s| && s[i..e] == "-" + u
    ensures s[i] == '-' && s[i + 1..e] == u
  {
    assert s[i] == s[i..e][0];
    assert s[i + 1..e] == s[i..e][1..];
  }

  /** A numeral written by `IntToString` at position `i`, not followed by a digit,
      is read back by one `%d` conversion. */
  lemma {:induction false} ScanIntOfNumeral(s: string, i: nat, n: int)
    requires i + |IntToString(n)| <= |s|
    requires s[i..i + |IntToString(n)|] == IntToString(n)
    requires i + |IntToString(n)| == |s| || !IsDigit(s[i + |IntToString(n)|])
    ensures ScanInt(s, i) == Some((n, i + |IntToString(n)|))
  {
    var t := IntToString(n);
    var e := i + |t|;
    assert s[i] == t[0];
    assert SkipSpace(s, i) == i;
    if n < 0 {
      SliceAfterHead(s, i, e, NatToString(-n));
      DigitsInPlace(s, i + 1, e);
    } else {
      assert IsDigit(s[i]);
      DigitsInPlace(s, i, e);
    }
  }

  /** The numeral in `s[p..q]`, followed by a non-digit, is read back from `p`. */
  lemma {:induction false} NumeralField(s: string, p: nat, q: nat, n: int)
    requires p <= q < |s| && s[p..q] == IntToString(n) && !IsDigit(s[q])
    ensures ScanInt(s, p) == Some((n, q))
  {
    ScanIntOfNumeral(s, p, n);
  }

  /** A comma and a numeral after the second value store the third. */
  lemma {:induction false} ScanThirdField(s: string, j: nat, a: int, b: int, c: int)
    requires j < |s| && s[j] == ','
    requires ScanInt(s, j + 1).Some? && ScanInt(s, j + 1).value.0 == c
    ensures ScanAfter(s, j, [a, b]) == Scan(3, [a, b, c])
  {
    assert [a, b] + [c] == [a, b, c];
  }

  /** A comma and a numeral after the first value store the second; the scan goes on
      from where that numeral ends. */
  lemma {:induction false} ScanSecondField(s: string, i: nat, j: nat, a: int, b: int)
    requires i < |s| && s[i] == ','
    requires ScanInt(s, i + 1) == Some((b, j))
    ensures ScanAfter(s, i, [a]) == ScanAfter(s, j, [a, b])
  {
    assert [a] + [b] == [a, b];
  }

  /** Without a comma where the last numeral ended, the scan stops with what it stored. */
  lemma {:induction false} NoCommaStops(s: string, j: nat, done: seq<int>)
    requires j < |s| && s[j] != ',' && 1 <= |done| <= 2
    ensures ScanAfter(s, j, done) == Scan(|done|, done)
  {
  }

  /** A text made of three numerals separated by commas and followed by one more
      character is read as those three values. */
  lemma {:induction false} ScanThreeFields(s: string, i: nat, j: nat, a: int, b: int, c: int)
    requires i < j && j + 1 < |s|
    requires s[..i] == IntToString(a) && s[i] == ','
    requires s[i + 1..j] == IntToString(b) && s[j] == ','
    requires s[j + 1..|s| - 1] == IntToString(c) && !IsDigit(s[|s| - 1])
    ensures ScanThreeInts(s) == Scan(3, [a, b, c])
  {
    ThirdField(s, j, a, b, c);
    SecondField(s, i, j, a, b);
    FirstField(s, i, a);
  }

  /** The first numeral is read from the start and the scan goes on after it. */
  lemma {:induction false} FirstField(s: string, i: nat, a: int)
    requires i < |s| && s[..i] == IntToString(a) && !IsDigit(s[i])
    ensures ScanThreeInts(s) == ScanAfter(s, i, [a])
  {
    assert s[0..i] == s[..i];
    NumeralField(s, 0, i, a);
    assert s[0] == IntToString(a)[0];
  }

  /** A comma and the second numeral store the second value. */
  lemma {:induction false} SecondField(s: string, i: nat, j: nat, a: int, b: int)
    requires i < j < |s| && s[i] == ','
    requires s[i + 1..j] == IntToString(b) && !IsDigit(s[j])
    ensures ScanAfter(s, i, [a]) == ScanAfter(s, j, [a, b])
  {
    NumeralField(s, i + 1, j, b);
    ScanSecondField(s, i, j, a, b);
  }

  /** A comma and the third numeral store the third value. */
  lemma {:induction false} ThirdField(s: string, j: nat, a: int, b: int, c: int)
    requires j + 1 < |s| && s[j] == ','
    requires s[j + 1..|s| - 1] == IntToString(c) && !IsDigit(s[|s| - 1])
    ensures ScanAfter(s, j, [a, b]) == Scan(3, [a, b, c])
  {
    NumeralField(s, j + 1, |s| - 1, c);
    ScanThirdField(s, j, a, b, c);
  }

  lemma {:induction false} ScanTwoFields(s: string, i: nat, a: int, b: int)
    requires i + 1 < |s|
    requires s[..i] == IntToString(a) && s[i] == ','
    requires s[i + 1..|s| - 1] == IntToString(b) && s[|s| - 1] == '\n'
    ensures ScanThreeInts(s) == Scan(2, [a, b])
  {
    SecondField(s, i, |s| - 1, a, b);
    NoCommaStops(s, |s| - 1, [a, b]);
    FirstField(s, i, a);
  }

  /** Round trip: the ESP's `sscanf(data, "%d,%d,%d", ...)` on a frame written by
      `FormatThree` stores three values, the ones that were written. */
  lemma {:induction false} ScanFormatThree(a: int, b: int, c: int)
    ensures ScanThreeInts(FormatThree(a, b, c)) == Scan(3, [a, b, c])
  {
    var ta, tb, tc := IntToString(a), IntToString(b), IntToString(c);
    ThreeFieldSlices(ta, tb, tc);
    ScanThreeFields(FormatThree(a, b, c), |ta|, |ta| + 1 + |tb|, a, b, c);
  }

  /** Where the fields and separators of a three-field frame sit. */
  lemma {:induction false} ThreeFieldSlices(x: string, y: string, z: string)
    ensures var s := x + "," + y + "," + z + "\n";
      var i, j := |x|, |x| + 1 + |y|;
      && s[..i] == x && s[i] == ',' && s[i + 1..j] == y && s[j] == ','
      && s[j + 1..|s| - 1] == z && s[|s| - 1] == '\n'
  {
    var s := x + "," + y + "," + z + "\n";
    var i, j := |x|, |x| + 1 + |y|;
    assert s[..i] == x by {
      assert forall k :: 0 <= k < i ==> s[..i][k] == x[k];
    }
    assert s[i + 1..j] == y by {
      assert forall k :: 0 <= k < |y| ==> s[i + 1..j][k] == y[k];
    }
    assert s[j + 1..|s| - 1] == z by {
      assert forall k :: 0 <= k < |z| ==> s[j + 1..|s| - 1][k] == z[k];
    }
  }

  /** Where the fields and the separator of a two-field frame sit. */
  lemma {:induction false} TwoFieldSlices(x: string, y: string)
    ensures var s := x + "," + y + "\n";
      var i := |x|;
      s[..i] == x && s[i] == ',' && s[i + 1..|s| - 1] == y && s[|s| - 1] == '\n'
  {
    var s := x + "," + y + "\n";
    var i := |x|;
    assert s[..i] == x by {
      assert forall k :: 0 <= k < i ==> s[..i][k] == x[k];
    }
    assert s[i + 1..|s| - 1] == y by {
      assert forall k :: 0 <= k < |y| ==> s[i + 1..|s| - 1][k] == y[k];
    }
  }

  /** A two-field frame never yields three conversions. */
  lemma {:induction false} ScanFormatTwo(a: int, b: int)
    ensures ScanThreeInts(FormatTwo(a, b)) == Scan(2, [a, b])
  {
    var ta, tb := IntToString(a), IntToString(b);
    TwoFieldSlices(ta, tb);
    ScanTwoFields(FormatTwo(a, b), |ta|, a, b);
  }

  /** `std::stoi` reads back every `int` written by `std::to_string`. */
  lemma {:induction false} StoiOfIntToString(n: int)
    requires MinInt32 <= n <= MaxInt32
    ensures Stoi(IntToString(n)) == Some(n)
  {
    var t := IntToString(n);
    assert t[0..|t|] == t;
    ScanIntOfNumeral(t, 0, n);
  }

  predicate OccursAt(s: string, pat: string, k: nat)
  {
    k + |pat| <= |s| && s[k..k + |pat|] == pat
  }

  /** `s.find(pat, from)`: the first occurrence at or after `from`. */
  function FindFrom(s: string, pat: string, from: nat): (r: Option<nat>)
    ensures r.Some? ==> from <= r.value && OccursAt(s, pat, r.value)
    ensures r.Some? ==> forall k :: from <= k < r.value ==> !OccursAt(s, pat, k)
    ensures r.None? ==> forall k :: from <= k ==> !OccursAt(s, pat, k)
    decreases |s| - from
  {
    if from + |pat| > |s| then None
    else if OccursAt(s, pat, from) then Some(from)
    else FindFrom(s, pat, from + 1)
  }

  function Find(s: string, pat: string): Option<nat>
  {
    FindFrom(s, pat, 0)
  }

  predicate Contains(s: string, pat: string)
  {
    Find(s, pat).Some?
  }

  /** `s.find(p) == 0`, the prefix test the C++ code uses. */
  predicate StartsWith(s: string, p: string)
  {
    OccursAt(s, p, 0)
  }

  lemma {:induction false} StartsWithIsFindZero(s: string, p: string)
    ensures StartsWith(s, p) <==> Find(s, p) == Some(0)
  {
  }

  /** `s.find_first_of("0123456789", from)`. */
  function FindDigitFrom(s: string, from: nat): (r: Option<nat>)
    ensures r.Some? ==> from <= r.value < |s| && IsDigit(s[r.value])
    ensures r.Some? ==> forall k :: from <= k < r.value ==> !IsDigit(s[k])
    ensures r.None? ==> forall k :: from <= k < |s| ==> !IsDigit(s[k])
    decreases |s| - from
  {
    if from >= |s| then None
    else if IsDigit(s[from]) then Some(from)
    else FindDigitFrom(s, from + 1)
  }

  predicate InSet(c: char, set_: string) { c in set_ }

  /** `s.erase(0, s.find_first_not_of(cs))`. */
  function TrimFront(s: string, cs: string): (r: string)
    ensures |r| <= |s| && r == s[|s| - |r|..]
    ensures |r| > 0 ==> r[0] !in cs
    ensures forall k :: 0 <= k < |s| - |r| ==> s[k] in cs
  {
    if |s| == 0 || s[0] !in cs then s else TrimFront(s[1..], cs)
  }

  /** `s.erase(s.find_last_not_of(cs) + 1)`. */
  function TrimBack(s: string, cs: string): (r: string)
    ensures |r| <= |s| && r == s[..|r|]
    ensures |r| > 0 ==> r[|r| - 1] !in cs
    ensures forall k :: |r| <= k < |s| ==> s[k] in cs
  {
    if |s| == 0 || s[|s| - 1] !in cs then s else TrimBack(s[..|s| - 1], cs)
  }

  /** `std::stof` on plain decimal text: white space, an optional sign, digits
      with at most one decimal point and at least one digit; the value of that prefix. */
  function Stof(s: string): (r: Option<real>)
    ensures r.Some? ==> exists k :: 0 <= k < |s| && IsDigit(s[k])
  {
    var a := SkipSpace(s, 0);
    var signed := a < |s| && (s[a] == '-' || s[a] == '+');
    var b := if signed then a + 1 else a;
    var e := DigitRunEnd(s, b);
    var hasPoint := e < |s| && s[e] == '.';
    var f := if hasPoint then DigitRunEnd(s, e + 1) else e;
    if e == b && (!hasPoint || f == e + 1) then None
    else
      var whole := DigitsValue(s[b..e]) as real;
      var frac := if hasPoint then Fraction(s[e + 1..f]) else 0.0;
      assert e > b ==> IsDigit(s[b]);
      assert e == b ==> IsDigit(s[e + 1]);
      Some(if signed && s[a] == '-' then -(whole + frac) else whole + frac)
  }

  /** The value of the digits after a decimal point. */
  function Fraction(s: string): (r: real)
    requires AllDigits(s)
    ensures 0.0 <= r < 1.0
  {
    if |s| == 0 then 0.0 else (DigitValue(s[0]) as real + Fraction(s[1..])) / 10.0
  }

  /** `std::stof` reads back a whole number written in decimal. */
  lemma {:induction false} StofOfNatToString(n: nat)
    ensures Stof(NatToString(n)) == Some(n as real)
  {
    var t := NatToString(n);
    assert t[0..|t|] == t;
    assert !IsSpace(t[0]);
    assert SkipSpace(t, 0) == 0;
    DigitRunEndAt(t, 0, |t|);
  }
}
