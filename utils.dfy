/**
 * Tag accessor, DA/TM parsers and multi-valued number access
 * (src/imageLoader/dcmjs/metaData/utils.js).
 *
 * DA and TM are the date and time value representations of DICOM PS3.5
 * section 6.2: DA is `YYYYMMDD`, TM is `HHMMSS.FFFFFF` with only `HH`
 * mandatory.
 */
module DicomUtils {
  import opened Values

  // ---------------------------------------------------------------------
  // Tag accessor

  /** The lookup key: a single leading 'x' is dropped. */
  function StripX(tag: string): (key: string)
    ensures |tag| > 0 && tag[0] == 'x' ==> key == tag[1..]
    ensures (|tag| == 0 || tag[0] != 'x') ==> key == tag
  {
    if |tag| > 0 && tag[0] == 'x' then tag[1..] else tag
  }

  /** `element[index]` of the element stored under exactly `key`, or `undefined`. */
  function Lookup(d: Dict, key: string, index: int): Val
  {
    if key in d.dict && |d.dict[key].items| != 0 then
      var items := d.dict[key].items;
      if 0 <= index < |items| then items[index] else Undef
    else Undef
  }

  /** getValue(dicomDict, tag, index). */
  function GetValue(d: Dict, tag: string, index: int): (r: Val)
    ensures StripX(tag) !in d.dict ==> r == Undef
    ensures StripX(tag) in d.dict && |d.dict[StripX(tag)].items| == 0 ==> r == Undef
    ensures StripX(tag) in d.dict && 0 <= index < |d.dict[StripX(tag)].items|
            ==> r == d.dict[StripX(tag)].items[index]
    ensures r != Undef ==> StripX(tag) in d.dict && 0 <= index < |d.dict[StripX(tag)].items|
  {
    Lookup(d, StripX(tag), index)
  }

  /** Prefixing a tag with 'x' looks up the same element, once. */
  lemma GetValueStripsOneX(d: Dict, t: string, index: int)
    ensures GetValue(d, "x" + t, index) == Lookup(d, t, index)
    ensures (|t| == 0 || t[0] != 'x') ==> GetValue(d, "x" + t, index) == GetValue(d, t, index)
  {
    assert ("x" + t)[1..] == t;
  }

  /** `getValue(dicomDict, tag)[0]`: throws when the tag yields `undefined`. */
  function First(d: Dict, tag: string): (r: Result<Val>)
    ensures r.Failure? <==> GetValue(d, tag, 0) == Undef
    ensures r.Failure? ==> r.error == TypeError
  {
    At(GetValue(d, tag, 0), 0)
  }

  // ---------------------------------------------------------------------
  // parseInt(s, 10)

  predicate IsDigit(c: char) { '0' <= c <= '9' }

  /** The white space `parseInt` skips (the common code points). */
  predicate IsJsWhiteSpace(c: char)
  {
    c == ' ' || c == '\t' || c == '\n' || c == '\r'
    || c as int == 0x0B || c as int == 0x0C || c as int == 0xA0
    || c as int == 0xFEFF || c as int == 0x2028 || c as int == 0x2029
  }

  function TrimStart(s: string): (t: string)
    ensures |t| <= |s|
    ensures |t| > 0 ==> !IsJsWhiteSpace(t[0])
  {
    if |s| > 0 && IsJsWhiteSpace(s[0]) then TrimStart(s[1..]) else s
  }

  /** Length of the longest prefix of decimal digits. */
  function DigitPrefix(s: string): (k: nat)
    ensures k <= |s|
    ensures forall i :: 0 <= i < k ==> IsDigit(s[i])
    ensures k < |s| ==> !IsDigit(s[k])
  {
    if |s| > 0 && IsDigit(s[0]) then 1 + DigitPrefix(s[1..]) else 0
  }

  /** The value of a string of decimal digits. */
  function DigitsValue(s: string): (v: nat)
    requires forall i :: 0 <= i < |s| ==> IsDigit(s[i])
    ensures v < Pow10(|s|)
  {
    if |s| == 0 then 0
    else
      var high := DigitsValue(s[..|s| - 1]);
      var low := s[|s| - 1] as int - '0' as int;
      assert IsDigit(s[|s| - 1]);
      assert 0 <= low <= 9;
      assert 10 * high + low < 10 * Pow10(|s| - 1) by {
        assert high + 1 <= Pow10(|s| - 1);
      }
      10 * high + low
  }

  /** JavaScript numbers from `parseInt`: an integer or NaN. */
  type IntOrNaN = v: Val | v.Num? || v.NaN? witness NaN

  /** parseInt(s, 10): skip white space, an optional sign, then the longest digit prefix. */
  function ParseInt(s: string): (r: IntOrNaN)
  {
    var t := TrimStart(s);
    var negative := |t| > 0 && t[0] == '-';
    var u := if |t| > 0 && (t[0] == '-' || t[0] == '+') then t[1..] else t;
    var k := DigitPrefix(u);
    if k == 0 then NaN
    else
      var magnitude: int := DigitsValue(u[..k]);
      Num(if negative then -magnitude else magnitude)
  }

  predicate AllDigits(s: string) { forall i :: 0 <= i < |s| ==> IsDigit(s[i]) }

  /** On a non-empty digit string, parseInt is the decimal value of the whole string. */
  lemma ParseIntOfDigits(s: string)
    requires |s| > 0 && AllDigits(s)
    ensures ParseInt(s) == Num(DigitsValue(s))
    ensures 0 <= ParseInt(s).n < Pow10(|s|)
  {
    assert !IsJsWhiteSpace(s[0]);
    assert TrimStart(s) == s;
    DigitPrefixOfDigits(s);
    assert s[..|s|] == s;
  }

  lemma {:induction false} DigitPrefixOfDigits(s: string)
    requires AllDigits(s)
    ensures DigitPrefix(s) == |s|
  {
    if |s| > 0 {
      DigitPrefixOfDigits(s[1..]);
    }
  }

  /** No digits (after white space and sign) means NaN. */
  lemma ParseIntNaN(s: string)
    requires |s| > 0 && !IsDigit(s[0]) && !IsJsWhiteSpace(s[0]) && s[0] != '-' && s[0] != '+'
    ensures ParseInt(s) == NaN
  {
  }

  // ---------------------------------------------------------------------
  // Dates (DA)

  predicate IsLeapYear(y: int)
  {
    (y % 4 == 0 && y % 100 != 0) || y % 400 == 0
  }

  /**
   * daysInMonth(m, y), with 1-based months. JavaScript's `%` truncates while
   * Dafny's is Euclidean; only tests against zero are made, where they agree.
   */
  function DaysInMonth(m: int, y: int): (days: int)
    ensures m == 2 ==> days == (if IsLeapYear(y) then 29 else 28)
    ensures m in {4, 6, 9, 11} ==> days == 30
    ensures m !in {2, 4, 6, 9, 11} ==> days == 31
  {
    if m == 2 then (if (y % 4 == 0 && y % 100 != 0) || y % 400 == 0 then 29 else 28)
    else if m == 9 || m == 4 || m == 6 || m == 11 then 30
    else 31
  }

  function DaysInYear(y: int, months: nat): (total: int)
    requires months <= 12
  {
    if months == 0 then 0 else DaysInYear(y, months - 1) + DaysInMonth(months, y)
  }

  /** The twelve months of a year add up to 365 days, 366 in a leap year. */
  lemma YearLength(y: int)
    ensures DaysInYear(y, 12) == if IsLeapYear(y) then 366 else 365
  {
    assert DaysInYear(y, 1) == 31;
    assert DaysInYear(y, 2) == 31 + DaysInMonth(2, y);
    assert DaysInYear(y, 3) == DaysInYear(y, 2) + 31;
    assert DaysInYear(y, 4) == DaysInYear(y, 3) + 30;
    assert DaysInYear(y, 5) == DaysInYear(y, 4) + 31;
    assert DaysInYear(y, 6) == DaysInYear(y, 5) + 30;
    assert DaysInYear(y, 7) == DaysInYear(y, 6) + 31;
    assert DaysInYear(y, 8) == DaysInYear(y, 7) + 31;
    assert DaysInYear(y, 9) == DaysInYear(y, 8) + 30;
    assert DaysInYear(y, 10) == DaysInYear(y, 9) + 31;
    assert DaysInYear(y, 11) == DaysInYear(y, 10) + 30;
    assert DaysInYear(y, 12) == DaysInYear(y, 11) + 31;
  }

  /** isValidDate(d, m, y) on parseInt results. */
  predicate IsValidDate(d: IntOrNaN, m: IntOrNaN, y: IntOrNaN)
  {
    if y.NaN? then false
    else m.Num? && d.Num? && m.n > 0 && m.n <= 12 && d.n > 0 && d.n <= DaysInMonth(m.n, y.n)
  }

  datatype DA = DA(year: Val, month: Val, day: Val)

  /** The year, month and day parseDA reads from characters 0-4, 4-6 and 6-8. */
  function DAFields(date: string): DA
    requires |date| == 8
  {
    DA(ParseInt(date[0..4]), ParseInt(date[4..6]), ParseInt(date[6..8]))
  }

  /**
   * parseDA(date, validate). An absent date is passed as the empty string,
   * which JavaScript treats the same way (both are falsy).
   */
  function ParseDA(date: string, validate: bool): (r: Result<Option<DA>>)
    ensures |date| != 8 ==> r == (if validate then Failure(InvalidDA(date)) else Success(None))
    ensures |date| == 8 ==> r.Failure? || r == Success(Some(DAFields(date)))
    ensures |date| == 8 && !validate ==> r.Success?
    ensures |date| == 8 && validate ==>
              (r.Success? <==> IsValidDate(DAFields(date).day, DAFields(date).month, DAFields(date).year))
    ensures r.Failure? ==> validate && r.error == InvalidDA(date)
  {
    if |date| > 0 && |date| == 8 then
      var yyyy := ParseInt(date[0..4]);
      var mm := ParseInt(date[4..6]);
      var dd := ParseInt(date[6..8]);
      if validate && IsValidDate(dd, mm, yyyy) != true then Failure(InvalidDA(date))
      else Success(Some(DA(yyyy, mm, dd)))
    else if validate then Failure(InvalidDA(date))
    else Success(None)
  }

  /** An all-digit date passes validation exactly when it names a calendar day. */
  lemma ParseDAValidDigits(date: string)
    requires |date| == 8 && AllDigits(date)
    ensures var y, m, d := DigitsValue(date[0..4]), DigitsValue(date[4..6]), DigitsValue(date[6..8]);
            ParseDA(date, true) ==
              if 1 <= m <= 12 && 1 <= d <= DaysInMonth(m, y)
              then Success(Some(DA(Num(y), Num(m), Num(d))))
              else Failure(InvalidDA(date))
  {
    var y, m, d := DigitsValue(date[0..4]), DigitsValue(date[4..6]), DigitsValue(date[6..8]);
    ParseIntOfDigits(date[0..4]);
    ParseIntOfDigits(date[4..6]);
    ParseIntOfDigits(date[6..8]);
    assert ParseInt(date[0..4]) == Num(y);
    assert ParseInt(date[4..6]) == Num(m);
    assert ParseInt(date[6..8]) == Num(d);
    assert DAFields(date) == DA(Num(y), Num(m), Num(d));
    assert IsValidDate(Num(d), Num(m), Num(y)) <==> 1 <= m <= 12 && 1 <= d <= DaysInMonth(m, y);
  }

  /** 2023 is not a leap year: its 29 February is rejected under validation. */
  lemma ParseDARejects20230229()
    ensures ParseDA("20230229", true) == Failure(InvalidDA("20230229"))
  {
    assert !IsLeapYear(2023) && AllDigits("20230229");
    ParseDAFeb29("20230229", 2023);
  }

  /** 2024 is a leap year: its 29 February is accepted. */
  lemma ParseDAAccepts20240229()
    ensures ParseDA("20240229", true) == Success(Some(DA(Num(2024), Num(2), Num(29))))
  {
    assert IsLeapYear(2024) && AllDigits("20240229");
    ParseDAFeb29("20240229", 2024);
  }

  /** `YYYY0229` validates exactly in leap years. */
  lemma ParseDAFeb29(s: string, year: int)
    requires |s| == 8 && AllDigits(s) && s[4..] == "0229"
    requires DigitOf(s[0]) * 1000 + DigitOf(s[1]) * 100 + DigitOf(s[2]) * 10 + DigitOf(s[3]) == year
    ensures ParseDA(s, true) ==
              if IsLeapYear(year) then Success(Some(DA(Num(year), Num(2), Num(29))))
              else Failure(InvalidDA(s))
  {
    assert DigitsValue(s[0..4]) == year by { DigitsValue4(s[0..4]); }
    assert DigitsValue(s[4..6]) == 2 by { DigitsValue2(s[4..6]); }
    assert DigitsValue(s[6..8]) == 29 by { DigitsValue2(s[6..8]); }
    ParseDAValidDigits(s);
  }

  function DigitOf(c: char): int { c as int - '0' as int }

  /** The value of a two-digit string. */
  lemma DigitsValue2(s: string)
    requires |s| == 2 && AllDigits(s)
    ensures DigitsValue(s) == 10 * DigitOf(s[0]) + DigitOf(s[1])
  {
    assert s[..1][..0] == [];
  }

  /** The value of a four-digit string. */
  lemma DigitsValue4(s: string)
    requires |s| == 4 && AllDigits(s)
    ensures DigitsValue(s) == 1000 * DigitOf(s[0]) + 100 * DigitOf(s[1]) + 10 * DigitOf(s[2]) + DigitOf(s[3])
  {
    DigitsValue2(s[..2]);
    assert s[..3][..2] == s[..2];
  }

  // ---------------------------------------------------------------------
  // Times (TM)

  datatype TM = TM(hours: Val, minutes: Val, seconds: Val, fractionalSeconds: Val)

  /** `n * 10^k` on a parseInt result (NaN stays NaN). */
  function Scale(v: IntOrNaN, k: nat): (r: IntOrNaN)
    ensures v.NaN? <==> r.NaN?
    ensures v.Num? ==> r == Num(v.n * Pow10(k))
  {
    if v.NaN? then NaN else Num(v.n * Pow10(k))
  }

  /** The fractional part: characters 7 to 13, when the string has at least 8. */
  function FractionalStr(time: string): (f: string)
    requires |time| >= 8
    ensures 1 <= |f| <= 6
  {
    time[7..if |time| < 13 then |time| else 13]
  }

  /** A present component that is NaN, or an out-of-range one, as the validation tests it. */
  predicate OutOfRange(v: Val, hi: int)
  {
    v.Num? && Truthy(v) && (v.n < 0 || v.n > hi)
  }

  /** The strict-validation test of parseTM, as written (zero values skip the range test). */
  predicate InvalidTime(hh: Val, mm: Val, ss: Val, ff: Val)
  {
    hh.NaN? || (mm != Undef && mm.NaN?) || (ss != Undef && ss.NaN?) || (ff != Undef && ff.NaN?)
    || (hh.Num? && (hh.n < 0 || hh.n > 23))
    || OutOfRange(mm, 59) || OutOfRange(ss, 59) || OutOfRange(ff, 999999)
  }

  /** parseTM(time, validate). */
  function ParseTM(time: string, validate: bool): (r: Result<Option<TM>>)
    ensures |time| < 2 ==> r == (if validate then Failure(InvalidTM(time)) else Success(None))
    ensures |time| >= 2 && !validate ==> r.Success? && r.value.Some?
    ensures r.Success? && r.value.Some? ==>
              var t := r.value.value;
              && t.hours == ParseInt(time[0..2])
              && (t.minutes != Undef <==> |time| >= 4)
              && (t.seconds != Undef <==> |time| >= 6)
              && (t.fractionalSeconds != Undef <==> |time| >= 8)
              && (|time| >= 4 ==> t.minutes == ParseInt(time[2..4]))
              && (|time| >= 6 ==> t.seconds == ParseInt(time[4..6]))
              && (|time| >= 8 ==>
                    t.fractionalSeconds == Scale(ParseInt(FractionalStr(time)), 6 - |FractionalStr(time)|))
    ensures |time| >= 2 && validate ==>
              var t := ParseTMFields(time);
              (r.Failure? <==> InvalidTime(t.hours, t.minutes, t.seconds, t.fractionalSeconds))
    ensures r.Failure? ==> validate && r.error == InvalidTM(time)
  {
    if |time| >= 2 then
      var t := ParseTMFields(time);
      if validate && InvalidTime(t.hours, t.minutes, t.seconds, t.fractionalSeconds) then
        Failure(InvalidTM(time))
      else Success(Some(t))
    else if validate then Failure(InvalidTM(time))
    else Success(None)
  }

  /** The components parseTM reads from a string of length two or more. */
  function ParseTMFields(time: string): TM
    requires |time| >= 2
  {
    var hh := ParseInt(time[0..2]);
    var mm := if |time| >= 4 then ParseInt(time[2..4]) else Undef;
    var ss := if |time| >= 6 then ParseInt(time[4..6]) else Undef;
    var ffffff := if |time| >= 8 then
                    var f := FractionalStr(time); Scale(ParseInt(f), 6 - |f|)
                  else Undef;
    TM(hh, mm, ss, ffffff)
  }

  /**
   * The truthiness shortcut in the validation is harmless: validation
   * fails exactly when the hour is NaN or outside 0-23, or a present
   * minute, second or fraction is NaN or outside its range.
   */
  lemma ParseTMValidation(time: string)
    requires |time| >= 2
    ensures var t := ParseTMFields(time);
            ParseTM(time, true).Failure? <==>
              || !InRange(t.hours, 23)
              || (t.minutes != Undef && !InRange(t.minutes, 59))
              || (t.seconds != Undef && !InRange(t.seconds, 59))
              || (t.fractionalSeconds != Undef && !InRange(t.fractionalSeconds, 999999))
  {
  }

  predicate InRange(v: Val, hi: int) { v.Num? && 0 <= v.n <= hi }

  /** parseTM("1015") is 10:15 with seconds and fraction left undefined. */
  lemma ParseTM1015()
    ensures ParseTM("1015", false) == Success(Some(TM(Num(10), Num(15), Undef, Undef)))
  {
    var s := "1015";
    assert ParseInt(s[0..2]) == Num(10) by {
      ParseIntOfDigits(s[0..2]);
      DigitsValue2(s[0..2]);
    }
    assert ParseInt(s[2..4]) == Num(15) by {
      ParseIntOfDigits(s[2..4]);
      DigitsValue2(s[2..4]);
    }
    assert ParseTMFields(s) == TM(Num(10), Num(15), Undef, Undef);
  }

  // ---------------------------------------------------------------------
  // Multi-valued strings

  /** `s.split(sep)` for a one-character separator. */
  function Split(s: string, sep: char): (parts: seq<string>)
    ensures |parts| >= 1
  {
    if |s| == 0 then [""]
    else
      var rest := Split(s[1..], sep);
      if s[0] == sep then [""] + rest
      else [[s[0]] + rest[0]] + rest[1..]
  }

  /** Joins parts with a separator, the inverse of Split. */
  function Join(parts: seq<string>, sep: char): string
    requires |parts| >= 1
  {
    if |parts| == 1 then parts[0] else parts[0] + [sep] + Join(parts[1..], sep)
  }

  function Count(s: string, c: char): nat
  {
    if |s| == 0 then 0 else (if s[0] == c then 1 else 0) + Count(s[1..], c)
  }

  /** Splitting yields one more part than there are separators, none containing one, and joins back. */
  lemma {:induction false} SplitJoin(s: string, sep: char)
    ensures Join(Split(s, sep), sep) == s
    ensures |Split(s, sep)| == Count(s, sep) + 1
    ensures forall i :: 0 <= i < |Split(s, sep)| ==> sep !in Split(s, sep)[i]
  {
    if |s| > 0 {
      SplitJoin(s[1..], sep);
      var rest := Split(s[1..], sep);
      if s[0] == sep {
        assert Split(s, sep) == [""] + rest;
        assert ([""] + rest)[1..] == rest;
        assert s == [sep] + s[1..];
      } else {
        var parts := Split(s, sep);
        assert parts[0] == [s[0]] + rest[0];
        assert parts[1..] == rest[1..];
        if |rest| == 1 {
          assert s == [s[0]] + s[1..];
        } else {
          calc {
            Join(parts, sep);
            parts[0] + [sep] + Join(parts[1..], sep);
            [s[0]] + rest[0] + [sep] + Join(rest[1..], sep);
            [s[0]] + (rest[0] + [sep] + Join(rest[1..], sep));
            [s[0]] + Join(rest, sep);
            s;
          }
        }
        forall i | 0 <= i < |parts| ensures sep !in parts[i] {
          if i > 0 { assert parts[i] == rest[i]; }
        }
      }
    }
  }

  /**
   * getNumberValues(dicomDict, tag, minimumLength): a `minimumLength` of 0
   * stands for an absent one (both are falsy). `parseFloat` is kept
   * abstract.
   */
  method GetNumberValues<N>(d: Dict, tag: string, minimumLength: int, parseFloat: string -> N)
    returns (r: Result<Option<seq<N>>>)
    ensures var v := GetValue(d, tag, 0);
            && (!Truthy(v) ==> r == Success(None))
            && (Truthy(v) && !v.Str? ==> r == Failure(TypeError))
            && (Truthy(v) && v.Str? ==>
                  var parts := Split(v.s, '\\');
                  if minimumLength != 0 && |parts| < minimumLength then r == Success(None)
                  else r.Success? && r.value.Some? && |r.value.value| == |parts|
                       && forall i :: 0 <= i < |parts| ==> r.value.value[i] == parseFloat(parts[i]))
  {
    var values: seq<N> := [];
    var valueAsString := GetValue(d, tag, 0);
    if !Truthy(valueAsString) {
      return Success(None);
    }
    if !valueAsString.Str? {
      return Failure(TypeError);
    }
    var split := Split(valueAsString.s, '\\');
    if minimumLength != 0 && |split| < minimumLength {
      return Success(None);
    }
    for i := 0 to |split|
      invariant |values| == i
      invariant forall j :: 0 <= j < i ==> values[j] == parseFloat(split[j])
    {
      values := values + [parseFloat(split[i])];
    }
    return Success(Some(values));
  }
}
