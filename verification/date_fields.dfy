/**
 * The month, day and year text fields of the upload form, as the keystroke
 * handlers and the blur handlers of both front ends leave them, and the
 * `YYYY-MM-DD` string assembled from them at submission.
 */
module DateFields {
  import opened Common

  predicate IsDigit(c: char) { '0' <= c <= '9' }

  predicate IsDigits(s: string) { forall i :: 0 <= i < |s| ==> IsDigit(s[i]) }

  function DigitValue(c: char): (n: nat)
    requires IsDigit(c)
    ensures n <= 9
  {
    c as int - '0' as int
  }

  /** The decimal value of a string of digits, as `parseInt` reads it. */
  function Value(s: string): (n: nat)
    requires IsDigits(s)
  {
    if s == [] then 0 else 10 * Value(s[..|s| - 1]) + DigitValue(s[|s| - 1])
  }

  /** `parseInt`: the value of the leading run of digits, or absent (NaN) when there is none. */
  function ParseInt(s: string): (r: Option<nat>)
    ensures r.None? <==> s == [] || !IsDigit(s[0])
    ensures IsDigits(s) && s != [] ==> r == Some(Value(s))
  {
    if s == [] || !IsDigit(s[0]) then None else Some(Value(LeadingDigits(s)))
  }

  function LeadingDigits(s: string): (r: string)
    ensures IsDigits(r)
    ensures IsDigits(s) ==> r == s
    ensures s != [] && IsDigit(s[0]) ==> r != []
  {
    if s != [] && IsDigit(s[0]) then [s[0]] + LeadingDigits(s[1..]) else []
  }

  /** `replace(/\D/g, '')`: every digit of `s`, in order, and nothing else. */
  function Digits(s: string): (r: string)
    ensures IsDigits(r) && |r| <= |s|
    ensures IsDigits(s) ==> r == s
    ensures |s| == 1 ==> r == if IsDigit(s[0]) then s else []
  {
    if s == [] then []
    else if IsDigit(s[0]) then [s[0]] + Digits(s[1..])
    else Digits(s[1..])
  }

  /** The digits of a concatenation are the digits of each part, in order; with
      the single-character case of `Digits`, this says that exactly the digits
      are kept, in their order. */
  lemma {:induction false} DigitsOfConcat(a: string, b: string)
    ensures Digits(a + b) == Digits(a) + Digits(b)
  {
    if a != [] {
      assert (a + b)[1..] == a[1..] + b;
      DigitsOfConcat(a[1..], b);
    } else {
      assert a + b == b;
    }
  }

  /** `if (value.length > n) value = value.slice(0, n)` */
  function Truncate(s: string, n: nat): (r: string)
    ensures |r| <= n && r <= s
    ensures |s| <= n ==> r == s
    ensures |s| >= n ==> r == s[..n]
  {
    if |s| > n then s[..n] else s
  }

  /** Month keystroke handler (frontend/script.js): digits only, at most two, a lone
      digit above 1 gets a leading zero, a two-digit value is clamped into 01..12. */
  function MonthInput(typed: string): (v: string)
    ensures IsDigits(v) && |v| <= 2
    ensures v == [] <==> Digits(typed) == []
    ensures |v| == 1 ==> v == "0" || v == "1"
    ensures |v| == 2 ==> 1 <= Value(v) <= 12
    ensures var d := Digits(typed); |d| == 1 && DigitValue(d[0]) > 1 ==> v == ['0', d[0]]
    ensures var d := Digits(typed); |d| == 1 && DigitValue(d[0]) <= 1 ==> v == d
    ensures var d := Digits(typed); |d| >= 2 && 1 <= Value(d[..2]) <= 12 ==> v == d[..2]
    ensures var d := Digits(typed); |d| >= 2 && Value(d[..2]) > 12 ==> v == "12"
    ensures var d := Digits(typed); |d| >= 2 && Value(d[..2]) < 1 ==> v == "01"
  {
    var value := Truncate(Digits(typed), 2);
    ShortValues(value);
    if |value| == 1 then
      if Value(value) > 1 then "0" + value else value
    else if |value| == 2 then
      var num := Value(value);
      var value := if num > 12 then "12" else value;
      if num < 1 then "01" else value
    else value
  }

  /** The month handler of frontend/script-backend.js, written with `else if`. */
  function MonthInputBackend(typed: string): (v: string)
    ensures IsDigits(v) && |v| <= 2
    ensures |v| == 2 ==> 1 <= Value(v) <= 12
  {
    var value := Truncate(Digits(typed), 2);
    ShortValues(value);
    if |value| == 1 then
      if Value(value) > 1 then "0" + value else value
    else if |value| == 2 then
      var month := Value(value);
      if month > 12 then "12" else if month < 1 then "01" else value
    else value
  }

  /** Day keystroke handler (frontend/script.js): digits only, at most two, a lone
      digit above 3 gets a leading zero, a two-digit value is clamped into 01..31. */
  function DayInput(typed: string): (v: string)
    ensures IsDigits(v) && |v| <= 2
    ensures v == [] <==> Digits(typed) == []
    ensures |v| == 1 ==> Value(v) <= 3
    ensures |v| == 2 ==> 1 <= Value(v) <= 31
    ensures var d := Digits(typed); |d| == 1 && DigitValue(d[0]) > 3 ==> v == ['0', d[0]]
    ensures var d := Digits(typed); |d| == 1 && DigitValue(d[0]) <= 3 ==> v == d
    ensures var d := Digits(typed); |d| >= 2 && 1 <= Value(d[..2]) <= 31 ==> v == d[..2]
    ensures var d := Digits(typed); |d| >= 2 && Value(d[..2]) > 31 ==> v == "31"
    ensures var d := Digits(typed); |d| >= 2 && Value(d[..2]) < 1 ==> v == "01"
  {
    var value := Truncate(Digits(typed), 2);
    ShortValues(value);
    if |value| == 1 then
      if Value(value) > 3 then "0" + value else value
    else if |value| == 2 then
      var num := Value(value);
      var value := if num > 31 then "31" else value;
      if num < 1 then "01" else value
    else value
  }

  /** The day handler of frontend/script-backend.js, written with `else if`. */
  function DayInputBackend(typed: string): (v: string)
    ensures IsDigits(v) && |v| <= 2
    ensures |v| == 2 ==> 1 <= Value(v) <= 31
  {
    var value := Truncate(Digits(typed), 2);
    ShortValues(value);
    if |value| == 1 then
      if Value(value) > 3 then "0" + value else value
    else if |value| == 2 then
      var day := Value(value);
      if day > 31 then "31" else if day < 1 then "01" else value
    else value
  }

  /** Year keystroke handler (both front ends): digits only, at most four. */
  function YearInput(typed: string): (v: string)
    ensures IsDigits(v) && |v| <= 4
    ensures v <= Digits(typed)
    ensures |Digits(typed)| <= 4 ==> v == Digits(typed)
    ensures |Digits(typed)| >= 4 ==> v == Digits(typed)[..4]
  {
    Truncate(Digits(typed), 4)
  }

  /** The blur handler shared by the month and day fields: pad a lone digit, turn `00` into `01`. */
  function PadOnBlur(value: string): (r: string)
    ensures r != "00"
    ensures value == "0" || value == "00" ==> r == "01"
    ensures |value| == 1 && value != "0" ==> r == ['0', value[0]]
    ensures |value| != 1 && value != "00" ==> r == value
  {
    var value := if |value| == 1 then "0" + value else value;
    if value == "00" then "01" else value
  }

  /** The year range check of the blur handler and of submission: NaN compares false both ways. */
  function YearOutOfRange(year: string): (out: bool)
    ensures out ==> year != [] && IsDigit(year[0])
    ensures IsDigits(year) && year != [] ==> (out <==> Value(year) < 1900 || Value(year) > 2100)
  {
    match ParseInt(year)
    case None => false
    case Some(n) => n < 1900 || n > 2100
  }

  /** `String(value).padStart(2, '0')` */
  function PadStart2(s: string): (r: string)
    ensures |r| == (if |s| >= 2 then |s| else 2)
    ensures |s| >= 2 ==> r == s
  {
    if |s| >= 2 then s else if |s| == 1 then "0" + s else "00"
  }

  /** The submitted date: `${year}-${pad2(month)}-${pad2(day)}`. */
  function DateString(year: string, month: string, day: string): string
  {
    year + "-" + PadStart2(month) + "-" + PadStart2(day)
  }

  /** Splits `YYYY-MM-DD` back into its three parts, reading the two-character
      month and day from the end. */
  function SplitDate(s: string): Option<(string, string, string)>
  {
    if |s| >= 6 && s[|s| - 6] == '-' && s[|s| - 3] == '-' then
      Some((s[..|s| - 6], s[|s| - 5..|s| - 3], s[|s| - 2..]))
    else None
  }

  // ---------------------------------------------------------------------
  // Properties of the masks
  // ---------------------------------------------------------------------

  lemma {:induction false} DigitsIdentity(s: string)
    requires IsDigits(s)
    ensures Digits(s) == s
  {
    if s != [] {
      DigitsIdentity(s[1..]);
    }
  }

  lemma ValueOfOne(a: char)
    requires IsDigit(a)
    ensures Value([a]) == DigitValue(a)
  {
    assert [a][..0] == [];
  }

  lemma ValueOfPair(a: char, b: char)
    requires IsDigit(a) && IsDigit(b)
    ensures Value([a, b]) == 10 * DigitValue(a) + DigitValue(b)
  {
    assert [a, b][..1] == [a];
    ValueOfOne(a);
  }

  /** The values the masks compare against and produce. */
  lemma ShortValues(value: string)
    requires IsDigits(value) && |value| <= 2
    ensures |value| == 1 ==> Value(value) == DigitValue(value[0])
    ensures |value| == 1 ==> Value("0" + value) == Value(value) && "0" + value == ['0', value[0]]
    ensures |value| == 2 ==> Value(value) == 10 * DigitValue(value[0]) + DigitValue(value[1])
    ensures Value("01") == 1 && Value("12") == 12 && Value("31") == 31
  {
    if |value| == 1 {
      assert value == [value[0]];
      ValueOfOne(value[0]);
      ValueOfPair('0', value[0]);
    } else if |value| == 2 {
      assert value == [value[0], value[1]];
      ValueOfPair(value[0], value[1]);
    }
    ValueOfPair('0', '1');
    ValueOfPair('1', '2');
    ValueOfPair('3', '1');
  }

  lemma SmallValues()
    ensures Value("01") == 1 && Value("12") == 12 && Value("31") == 31
    ensures Value("0") == 0 && Value("1") == 1
  {
    ValueOfPair('0', '1');
    ValueOfPair('1', '2');
    ValueOfPair('3', '1');
    assert "0"[..0] == [] && "1"[..0] == [];
  }

  /** Typing into an already masked month field leaves it as it is. */
  lemma MonthInputIdempotent(typed: string)
    ensures MonthInput(MonthInput(typed)) == MonthInput(typed)
  {
    var v := MonthInput(typed);
    DigitsIdentity(v);
    SmallValues();
    if |v| == 2 {
      assert v[..2] == v;
    }
  }

  /** Typing into an already masked day field leaves it as it is. */
  lemma DayInputIdempotent(typed: string)
    ensures DayInput(DayInput(typed)) == DayInput(typed)
  {
    var v := DayInput(typed);
    DigitsIdentity(v);
    SmallValues();
    if |v| == 2 {
      assert v[..2] == v;
    }
  }

  /** Typing into an already masked year field leaves it as it is. */
  lemma YearInputIdempotent(typed: string)
    ensures YearInput(YearInput(typed)) == YearInput(typed)
  {
    DigitsIdentity(YearInput(typed));
  }

  /** The two front ends mask month and day identically. */
  lemma MasksAgree(typed: string)
    ensures MonthInputBackend(typed) == MonthInput(typed)
    ensures DayInputBackend(typed) == DayInput(typed)
  {
  }

  /** After the keystroke mask and then the blur handler, a non-empty month is
      two digits in 01..12. */
  lemma MonthAfterBlur(typed: string)
    requires MonthInput(typed) != []
    ensures var v := PadOnBlur(MonthInput(typed));
      |v| == 2 && IsDigits(v) && 1 <= Value(v) <= 12
  {
    SmallValues();
  }

  /** After the keystroke mask and then the blur handler, a non-empty day is
      two digits in 01..31. */
  lemma DayAfterBlur(typed: string)
    requires DayInput(typed) != []
    ensures var v := PadOnBlur(DayInput(typed));
      |v| == 2 && IsDigits(v) && 1 <= Value(v) <= 31
  {
    var m := DayInput(typed);
    SmallValues();
    if |m| == 1 {
      ValueOfPair('0', m[0]);
      assert m[..0] == [];
    }
  }

  /** A masked year is out of range exactly when its value lies outside 1900..2100;
      an empty year field is never reported. */
  lemma YearRangeOfMaskedField(typed: string)
    ensures var year := YearInput(typed);
      (year == [] ==> !YearOutOfRange(year)) &&
      (year != [] ==> (YearOutOfRange(year) <==> Value(year) < 1900 || Value(year) > 2100))
  {
  }

  /** Blurring twice is blurring once. */
  lemma PadOnBlurIdempotent(value: string)
    ensures PadOnBlur(PadOnBlur(value)) == PadOnBlur(value)
  {
  }

  /** Padding yields at least two characters: zeros, then the field unchanged. */
  lemma PadStart2Shape(s: string)
    ensures var r := PadStart2(s);
      |r| == (if |s| >= 2 then |s| else 2) && r[|r| - |s|..] == s &&
      forall i :: 0 <= i < |r| - |s| ==> r[i] == '0'
  {
  }

  /** Padding keeps the numeric value of a masked month or day. */
  lemma PadStart2KeepsValue(s: string)
    requires IsDigits(s) && |s| <= 2
    ensures IsDigits(PadStart2(s)) && Value(PadStart2(s)) == Value(s)
  {
    if |s| == 1 {
      ValueOfPair('0', s[0]);
      assert s[..0] == [];
    } else if |s| == 0 {
      ValueOfPair('0', '0');
    }
  }

  /** The submitted date string splits back into the year and the padded month and day. */
  lemma DateStringRoundTrip(year: string, month: string, day: string)
    requires |month| <= 2 && |day| <= 2
    ensures SplitDate(DateString(year, month, day)) == Some((year, PadStart2(month), PadStart2(day)))
  {
    var s := DateString(year, month, day);
    var m, d := PadStart2(month), PadStart2(day);
    PadStart2Shape(month);
    PadStart2Shape(day);
    assert s == year + "-" + m + "-" + d;
    assert |s| == |year| + 6;
    assert s[..|s| - 6] == year;
    assert s[|s| - 5..|s| - 3] == m;
    assert s[|s| - 2..] == d;
  }
}
