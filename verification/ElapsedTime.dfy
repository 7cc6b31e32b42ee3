/** The elapsed-time printer and the two parsers of its output. */
module ElapsedTime {
  import opened Arith
  import opened Outcomes

  // ---- decimal numerals ----

  predicate IsDigit(c: char) { '0' <= c <= '9' }

  predicate AllDigits(s: string) { forall i :: 0 <= i < |s| ==> IsDigit(s[i]) }

  function Digit(d: nat): (c: char)
    requires d < 10
    ensures IsDigit(c) && DigitValue(c) == d
  {
    '0' + d as char
  }

  function DigitValue(c: char): nat
    requires IsDigit(c)
  {
    (c - '0') as nat
  }

  function Digits(n: nat): (s: string)
    ensures |s| > 0 && AllDigits(s) && Value(s) == n
  {
    if n < 10 then [Digit(n)] else Digits(n / 10) + [Digit(n % 10)]
  }

  function Value(s: string): nat
    requires AllDigits(s)
  {
    if s == [] then 0 else 10 * Value(s[..|s| - 1]) + DigitValue(s[|s| - 1])
  }

  lemma {:induction false} LeadingZero(s: string)
    requires AllDigits(s)
    ensures AllDigits("0" + s) && Value("0" + s) == Value(s)
    decreases |s|
  {
    if s == [] {
      assert Value("0") == 10 * Value("0"[..0]) + DigitValue('0');
    } else {
      assert ("0" + s)[..|"0" + s| - 1] == "0" + s[..|s| - 1];
      LeadingZero(s[..|s| - 1]);
    }
  }

  function PadLeft(s: string, width: nat): (p: string)
    requires AllDigits(s)
    ensures AllDigits(p) && Value(p) == Value(s) && |p| == (if |s| < width then width else |s|)
    decreases width - |s|
  {
    if |s| < width then LeadingZero(s); PadLeft("0" + s, width) else s
  }

  /** The format {n:0wd}: the sign counts towards the width. */
  function Padded(n: int, width: nat): string
    requires width > 0
  {
    if n >= 0 then PadLeft(Digits(n), width) else "-" + PadLeft(Digits(-n), width - 1)
  }

  // ---- the printer ----

  function FloorDiv(x: real, m: real): int
    requires m > 0.0
  {
    (x / m).Floor
  }

  function FloorMod(x: real, m: real): real
    requires m > 0.0
  {
    x - FloorDiv(x, m) as real * m
  }

  /** int(x) truncates; all its arguments here are whole or nonnegative, where that is the floor. */
  function FormatTime(seconds: real): string
  {
    var days := FloorDiv(seconds, 86400.0);
    var hours := FloorDiv(FloorMod(seconds, 86400.0), 3600.0);
    var minutes := FloorDiv(FloorMod(seconds, 3600.0), 60.0);
    var secs := FloorMod(seconds, 60.0).Floor;
    var millis := (FloorMod(seconds, 1.0) * 1000.0).Floor;
    Padded(days, 2) + ":" + Padded(hours, 2) + ":" + Padded(minutes, 2) + ":" + Padded(secs, 2)
      + "." + Padded(millis, 3)
  }

  // ---- string tools of the parsers ----

  function IndexOf(s: string, c: char): (i: nat)
    ensures i <= |s| && c !in s[..i] && (i < |s| ==> s[i] == c)
  {
    if s == [] || s[0] == c then 0
    else
      var i := IndexOf(s[1..], c);
      assert s[..i + 1] == [s[0]] + s[1..][..i];
      i + 1
  }

  /** str.split(c). */
  function Split(s: string, c: char): (parts: seq<string>)
    ensures |parts| > 0
    decreases |s|
  {
    var i := IndexOf(s, c);
    if i == |s| then [s] else [s[..i]] + Split(s[i + 1..], c)
  }

  lemma {:induction false} IndexOfFirst(a: string, c: char, rest: string)
    requires c !in a
    ensures IndexOf(a + [c] + rest, c) == |a|
    decreases |a|
  {
    if a != [] {
      assert (a + [c] + rest)[1..] == a[1..] + [c] + rest;
      IndexOfFirst(a[1..], c, rest);
    }
  }

  lemma SplitFirst(a: string, c: char, rest: string)
    requires c !in a
    ensures Split(a + [c] + rest, c) == [a] + Split(rest, c)
  {
    var s := a + [c] + rest;
    IndexOfFirst(a, c, rest);
    assert s[..|a|] == a && s[|a| + 1..] == rest;
  }

  lemma SplitLast(a: string, c: char)
    requires c !in a
    ensures Split(a, c) == [a]
  {
    assert forall i :: 0 <= i < |a| ==> a[i] in a;
  }

  predicate IsSpace(c: char) { c == ' ' || c == '\t' || c == '\n' || c == '\r' }

  function Strip(s: string): string
  {
    if s == [] then s
    else if IsSpace(s[0]) then Strip(s[1..])
    else if IsSpace(s[|s| - 1]) then Strip(s[..|s| - 1])
    else s
  }

  /** int(s) on an optional sign and digits; anything else raises. */
  function ParseInt(s: string): Option<int>
  {
    if s != [] && AllDigits(s) then Some(Value(s))
    else if |s| > 1 && s[0] == '-' && AllDigits(s[1..]) then Some(0 - Value(s[1..]) as int)
    else None
  }

  /** The value of the digits after a decimal point. */
  function Fraction(s: string): real
    requires AllDigits(s)
  {
    if s == [] then 0.0 else (DigitValue(s[0]) as real + Fraction(s[1..])) / 10.0
  }

  /** float(s) on digits with at most one point; anything else raises. */
  function ParseFloat(s: string): Option<real>
  {
    var parts := Split(s, '.');
    if |parts| == 1 && parts[0] != [] && AllDigits(parts[0]) then Some(Value(parts[0]) as real)
    else if |parts| == 2 && AllDigits(parts[0]) && AllDigits(parts[1]) && parts[0] + parts[1] != [] then
      Some(Value(parts[0]) as real + Fraction(parts[1]))
    else None
  }

  function Filter(s: string, point: bool): string
  {
    if s == [] then []
    else (if IsDigit(s[0]) || (point && s[0] == '.') then [s[0]] else []) + Filter(s[1..], point)
  }

  // ---- the two parsers ----

  /** as_int: digits only, when int() raises. */
  function AsInt(s: string): int
  {
    match ParseInt(s)
    case Some(v) => v
    case None => var t := Filter(s, false); match ParseInt(t) case Some(v) => v case None => 0
  }

  /** as_float: digits and points only, when float() raises; that may raise again. */
  function AsFloat(s: string): Result<real>
  {
    match ParseFloat(s)
    case Some(v) => Ok(v)
    case None =>
      var t := Filter(s, true);
      if t == [] then Ok(0.0)
      else match ParseFloat(t) case Some(v) => Ok(v) case None => Err("could not convert string to float")
  }

  /** _time_to_seconds. */
  function TimeToSeconds(text: string): Result<real>
  {
    var parts := Split(Strip(text), ':');
    var n := |parts|;
    var d := if n == 4 then AsInt(parts[0]) else 0;
    var h := if n == 4 then AsInt(parts[1]) else if n == 3 then AsInt(parts[0]) else 0;
    var m := if n == 4 then AsInt(parts[2]) else if n == 3 then AsInt(parts[1]) else 0;
    match AsFloat(parts[n - 1])
    case Ok(sec) => Ok((((d * 24 + h) * 60 + m) * 60) as real + sec)
    case Err(e) => Err(e)
  }

  /** parse_time. */
  function ParseTime(text: string): Result<real>
  {
    if '.' !in text then Ok(0.0)
    else
      var parts := Split(text, '.');
      if |parts| < 2 then Err("list index out of range")
      else
        match ParseInt(if |parts[1]| > 3 then parts[1][..3] else parts[1])
        case None => Err("invalid literal for int()")
        case Some(ms) =>
          var ts := Split(parts[0], ':');
          if |ts| > 4 then Ok(0.0)
          else
            var vals := seq(|ts|, i requires 0 <= i < |ts| => ParseInt(ts[i]));
            if None in vals then Err("invalid literal for int()")
            else
              var d := if |ts| == 4 then vals[0].value else 0;
              var h := if |ts| >= 3 then vals[|ts| - 3].value else 0;
              var m := if |ts| >= 2 then vals[|ts| - 2].value else 0;
              var s := vals[|ts| - 1].value;
              Ok((d * 86400 + h * 3600 + m * 60 + s) as real + ms as real / 1000.0)
  }

  // ---- the printer in whole numbers ----

  lemma FloorDivLaw(x: real, m: nat)
    requires m > 0
    ensures FloorDiv(x, m as real) == x.Floor / m
    ensures FloorMod(x, m as real).Floor == x.Floor % m
  {
    var q, n := FloorDiv(x, m as real), x.Floor;
    assert x == x / m as real * m as real;
    QuotientBounds(x, x / m as real, m as real, q);
    assert (q * m) as real == q as real * m as real;
    assert ((q + 1) * m) as real == (q + 1) as real * m as real;
    assert (q + 1) * m == q * m + m;
    assert q * m <= n < q * m + m;
    DivModUnique(n - q * m, q, m);
    assert FloorMod(x, m as real) == x - (q * m) as real;
  }

  lemma QuotientBounds(x: real, y: real, m: real, q: int)
    requires m > 0.0 && x == y * m && q as real <= y < (q + 1) as real
    ensures q as real * m <= x < (q + 1) as real * m
  {
    assert (y - q as real) * m >= 0.0;
    assert ((q + 1) as real - y) * m > 0.0;
  }

  function DaysOf(x: real): int { FloorDiv(x, 86400.0) }

  function HoursOf(x: real): int { FloorDiv(FloorMod(x, 86400.0), 3600.0) }

  function MinutesOf(x: real): int { FloorDiv(FloorMod(x, 3600.0), 60.0) }

  function SecsOf(x: real): int { FloorMod(x, 60.0).Floor }

  function MillisOf(x: real): int { (FloorMod(x, 1.0) * 1000.0).Floor }

  lemma ClockArithmetic(n: int)
    ensures n / 86400 * 86400 + n % 86400 / 3600 * 3600 + n % 3600 / 60 * 60 + n % 60 == n
    ensures 0 <= n % 86400 / 3600 < 24 && 0 <= n % 3600 / 60 < 60
  {
    var d, r := n / 86400, n % 86400;
    var h, q := r / 3600, r % 3600;
    var m, s := q / 60, q % 60;
    assert n == 86400 * d + r && r == 3600 * h + q && q == 60 * m + s;
    DivModUnique(q, 24 * d + h, 3600);
    DivModUnique(s, 24 * 60 * d + 60 * h + m, 60);
  }

  lemma FieldsAreWhole(x: real)
    ensures DaysOf(x) == x.Floor / 86400 && HoursOf(x) == x.Floor % 86400 / 3600
    ensures MinutesOf(x) == x.Floor % 3600 / 60 && SecsOf(x) == x.Floor % 60
  {
    FloorDivLaw(x, 86400);
    FloorDivLaw(FloorMod(x, 86400.0), 3600);
    FloorDivLaw(x, 3600);
    FloorDivLaw(FloorMod(x, 3600.0), 60);
    FloorDivLaw(x, 60);
  }

  lemma MillisLaw(x: real)
    ensures 0 <= MillisOf(x) < 1000 && (x * 1000.0).Floor == x.Floor * 1000 + MillisOf(x)
  {
    assert x / 1.0 == x;
    assert FloorMod(x, 1.0) == x - x.Floor as real;
    assert x * 1000.0 == (x.Floor * 1000) as real + FloorMod(x, 1.0) * 1000.0;
  }

  /** The clock fields add up to the whole seconds, and the milliseconds to the truncated fraction. */
  lemma FieldsAddUp(x: real)
    ensures 0 <= HoursOf(x) < 24 && 0 <= MinutesOf(x) < 60 && 0 <= SecsOf(x) < 60 && 0 <= MillisOf(x) < 1000
    ensures DaysOf(x) * 86400 + HoursOf(x) * 3600 + MinutesOf(x) * 60 + SecsOf(x) == x.Floor
    ensures (x * 1000.0).Floor == x.Floor * 1000 + MillisOf(x)
  {
    FieldsAreWhole(x);
    ClockArithmetic(x.Floor);
    MillisLaw(x);
  }

  // ---- reading back what was printed ----

  /** A printed number reads back, contains neither separator, and starts and ends without space. */
  lemma PaddedReads(n: int, width: nat)
    requires width > 0
    ensures var p := Padded(n, width);
            && p != [] && ParseInt(p) == Some(n) && ':' !in p && '.' !in p
            && !IsSpace(p[0]) && !IsSpace(p[|p| - 1])
            && (n >= 0 ==> AllDigits(p) && Value(p) == n)
  {
    var p := Padded(n, width);
    if n < 0 {
      var t := PadLeft(Digits(-n), width - 1);
      assert p == "-" + t && p[1..] == t && !IsDigit(p[0]);
      assert p[|p| - 1] == t[|t| - 1];
      forall i | 0 <= i < |p| ensures p[i] == '-' || IsDigit(p[i]) { if i > 0 { assert p[i] == t[i - 1]; } }
    }
  }

  lemma ThreeDigits(n: nat)
    requires n < 1000
    ensures |Padded(n, 3)| == 3
  {
    assert |Digits(n / 10 / 10)| == 1;
    assert |Digits(n / 10)| <= 2;
    assert |Digits(n)| <= 3;
  }

  lemma ClockGroups(a: string, b: string, c: string, d: string)
    ensures a + ":" + b + ":" + c + ":" + d == a + [':'] + (b + [':'] + (c + [':'] + d))
  {
  }

  lemma SplitTwo(c: string, d: string)
    requires ':' !in c && ':' !in d
    ensures Split(c + [':'] + d, ':') == [c, d]
  {
    SplitFirst(c, ':', d);
    SplitLast(d, ':');
  }

  lemma SplitThree(b: string, c: string, d: string)
    requires ':' !in b && ':' !in c && ':' !in d
    ensures Split(b + [':'] + (c + [':'] + d), ':') == [b, c, d]
  {
    SplitFirst(b, ':', c + [':'] + d);
    SplitTwo(c, d);
  }

  /** Four fields split at the colons. */
  lemma SplitClock(a: string, b: string, c: string, d: string)
    requires ':' !in a && ':' !in b && ':' !in c && ':' !in d
    ensures Split(a + ":" + b + ":" + c + ":" + d, ':') == [a, b, c, d]
  {
    ClockGroups(a, b, c, d);
    SplitFirst(a, ':', b + [':'] + (c + [':'] + d));
    SplitThree(b, c, d);
  }

  lemma NoChar(a: string, b: string, c: char)
    requires c !in a && c !in b
    ensures c !in a + b
  {
  }

  lemma StripKeeps(s: string)
    requires s != [] && !IsSpace(s[0]) && !IsSpace(s[|s| - 1])
    ensures Strip(s) == s
  {
  }

  lemma SplitPoint(d: string, e: string)
    requires '.' !in d && '.' !in e
    ensures Split(d + "." + e, '.') == [d, e]
  {
    assert d + "." + e == d + ['.'] + e;
    SplitFirst(d, '.', e);
    SplitLast(e, '.');
  }

  lemma ValueOfThree(e: string)
    requires AllDigits(e) && |e| == 3
    ensures Value(e) == 100 * DigitValue(e[0]) + 10 * DigitValue(e[1]) + DigitValue(e[2])
  {
    var p := e[..2];
    var q := p[..1];
    assert q[..|q| - 1] == [];
    assert Value(q) == DigitValue(e[0]);
    assert p[..|p| - 1] == q;
    assert Value(p) == 10 * DigitValue(e[0]) + DigitValue(e[1]);
    assert e[..|e| - 1] == p;
  }

  lemma FractionOfThree(e: string)
    requires AllDigits(e) && |e| == 3
    ensures Fraction(e) ==
      (DigitValue(e[0]) as real + (DigitValue(e[1]) as real + DigitValue(e[2]) as real / 10.0) / 10.0) / 10.0
  {
    var p := e[1..];
    var q := p[1..];
    assert q[0] == e[2] && q[1..] == [];
    assert Fraction(q) == DigitValue(e[2]) as real / 10.0;
    assert p[0] == e[1];
    assert Fraction(p) == (DigitValue(e[1]) as real + Fraction(q)) / 10.0;
  }

  lemma Thousandths(e: string)
    requires AllDigits(e) && |e| == 3
    ensures Fraction(e) == Value(e) as real / 1000.0
  {
    ValueOfThree(e);
    FractionOfThree(e);
  }

  /** Seconds and milliseconds, read as one decimal number. */
  lemma DecimalReads(d: string, e: string)
    requires d != [] && AllDigits(d) && AllDigits(e) && |e| == 3 && '.' !in d && '.' !in e
    ensures AsFloat(d + "." + e) == Ok(Value(d) as real + Value(e) as real / 1000.0)
  {
    SplitPoint(d, e);
    DecimalOf(d + "." + e, d, e);
  }

  lemma DecimalOf(s: string, d: string, e: string)
    requires Split(s, '.') == [d, e] && d != [] && AllDigits(d) && AllDigits(e) && |e| == 3
    ensures AsFloat(s) == Ok(Value(d) as real + Value(e) as real / 1000.0)
  {
    TwoPartFloat(s, d, e);
    FloatRead(s, Value(d) as real + Fraction(e));
    Thousandths(e);
  }

  lemma FloatRead(s: string, v: real)
    requires ParseFloat(s) == Some(v)
    ensures AsFloat(s) == Ok(v)
  {
  }

  lemma TwoPartFloat(s: string, d: string, e: string)
    requires Split(s, '.') == [d, e] && d != [] && AllDigits(d) && AllDigits(e)
    ensures ParseFloat(s) == Some(Value(d) as real + Fraction(e))
  {
    var parts := Split(s, '.');
    assert parts[0] == d && parts[1] == e;
  }

  /**
   * Main result: for every elapsed time, of any number of days, both parsers turn the printed text back into the time
   * truncated to the millisecond.
   */
  lemma ParsersInvertPrinter(x: real)
    ensures TimeToSeconds(FormatTime(x)) == Ok((x * 1000.0).Floor as real / 1000.0)
    ensures ParseTime(FormatTime(x)) == Ok((x * 1000.0).Floor as real / 1000.0)
  {
    var days, hours, minutes, secs, millis := DaysOf(x), HoursOf(x), MinutesOf(x), SecsOf(x), MillisOf(x);
    FieldsAddUp(x);
    PaddedReads(days, 2);
    PaddedReads(hours, 2);
    PaddedReads(minutes, 2);
    PaddedReads(secs, 2);
    PaddedReads(millis, 3);
    ThreeDigits(millis);
    var a, b, c, d, e := Padded(days, 2), Padded(hours, 2), Padded(minutes, 2), Padded(secs, 2), Padded(millis, 3);
    FirstParserReads(a, b, c, d, e, days, hours, minutes, secs, millis);
    SecondParserReads(a, b, c, d, e, days, hours, minutes, secs, millis);
    assert FormatTime(x) == Clock(a, b, c, d) + "." + e;
    assert (x * 1000.0).Floor as real / 1000.0 == x.Floor as real + millis as real / 1000.0;
  }

  function Clock(a: string, b: string, c: string, d: string): string { a + ":" + b + ":" + c + ":" + d }

  function Seconds(days: int, hours: int, minutes: int, secs: int, millis: int): real
  {
    (days * 86400 + hours * 3600 + minutes * 60 + secs) as real + millis as real / 1000.0
  }

  ghost predicate Reads(p: string, n: int)
  {
    p != [] && ParseInt(p) == Some(n) && ':' !in p && '.' !in p && !IsSpace(p[0]) && !IsSpace(p[|p| - 1])
  }

  ghost predicate ReadsDigits(p: string, n: int) { Reads(p, n) && AllDigits(p) && Value(p) == n }

  lemma FirstParserReads(a: string, b: string, c: string, d: string, e: string, days: int, hours: int, minutes: int,
                         secs: int, millis: int)
    requires Reads(a, days) && Reads(b, hours) && Reads(c, minutes) && ReadsDigits(d, secs) && ReadsDigits(e, millis)
    requires |e| == 3
    ensures TimeToSeconds(Clock(a, b, c, d) + "." + e) == Ok(Seconds(days, hours, minutes, secs, millis))
  {
    var text := Clock(a, b, c, d) + "." + e;
    ClockText(a, b, c, d, e);
    StripKeeps(text);
    DecimalReads(d, e);
    FieldsRead(text, [a, b, c, d + "." + e], days, hours, minutes, secs as real + millis as real / 1000.0);
  }

  lemma ClockText(a: string, b: string, c: string, d: string, e: string)
    requires ':' !in a && ':' !in b && ':' !in c && ':' !in d && ':' !in e && a != [] && e != []
    ensures var text := Clock(a, b, c, d) + "." + e;
            && Split(text, ':') == [a, b, c, d + "." + e]
            && text != [] && text[0] == a[0] && text[|text| - 1] == e[|e| - 1]
  {
    assert ':' !in ".";
    NoChar(d, ".", ':');
    NoChar(d + ".", e, ':');
    assert Clock(a, b, c, d) + "." + e == a + ":" + b + ":" + c + ":" + (d + "." + e);
    SplitClock(a, b, c, d + "." + e);
  }

  lemma FieldsRead(text: string, parts: seq<string>, days: int, hours: int, minutes: int, sec: real)
    requires Strip(text) == text && Split(text, ':') == parts && |parts| == 4
    requires ParseInt(parts[0]) == Some(days) && ParseInt(parts[1]) == Some(hours)
    requires ParseInt(parts[2]) == Some(minutes)
    requires AsFloat(parts[3]) == Ok(sec)
    ensures TimeToSeconds(text) == Ok((days * 86400 + hours * 3600 + minutes * 60) as real + sec)
  {
    assert AsInt(parts[0]) == days && AsInt(parts[1]) == hours && AsInt(parts[2]) == minutes;
  }

  lemma SecondParserReads(a: string, b: string, c: string, d: string, e: string, days: int, hours: int, minutes: int,
                          secs: int, millis: int)
    requires Reads(a, days) && Reads(b, hours) && Reads(c, minutes) && Reads(d, secs) && Reads(e, millis) && |e| == 3
    ensures ParseTime(Clock(a, b, c, d) + "." + e) == Ok(Seconds(days, hours, minutes, secs, millis))
  {
    var clock := Clock(a, b, c, d);
    assert '.' !in clock by { NoPoint(a, b, c, d); }
    assert Split(clock, ':') == [a, b, c, d] by { SplitClock(a, b, c, d); }
    PointedReads(clock, [a, b, c, d], [days, hours, minutes, secs], e, millis);
  }

  lemma NoPoint(a: string, b: string, c: string, d: string)
    requires '.' !in a && '.' !in b && '.' !in c && '.' !in d
    ensures '.' !in Clock(a, b, c, d)
  {
    assert '.' !in ":";
    NoChar(a, ":", '.');
    NoChar(a + ":", b, '.');
    NoChar(a + ":" + b, ":", '.');
    NoChar(a + ":" + b + ":", c, '.');
    NoChar(a + ":" + b + ":" + c, ":", '.');
    NoChar(a + ":" + b + ":" + c + ":", d, '.');
  }

  lemma PointText(clock: string, e: string)
    requires '.' !in clock && '.' !in e
    ensures '.' in clock + "." + e && Split(clock + "." + e, '.') == [clock, e]
  {
    SplitPoint(clock, e);
    assert (clock + "." + e)[|clock|] == '.';
  }

  /** Two to four readable fields before the point and three digits after it; fields in front may be missing. */
  lemma PointedReads(clock: string, ts: seq<string>, ns: seq<int>, e: string, millis: int)
    requires '.' !in clock && Split(clock, ':') == ts && 2 <= |ts| == |ns| <= 4
    requires forall i :: 0 <= i < |ts| ==> ParseInt(ts[i]) == Some(ns[i])
    requires '.' !in e && |e| == 3 && ParseInt(e) == Some(millis)
    ensures ParseTime(clock + "." + e) ==
      Ok(Seconds(if |ns| == 4 then ns[0] else 0, if |ns| >= 3 then ns[|ns| - 3] else 0,
                 ns[|ns| - 2], ns[|ns| - 1], millis))
  {
    PointText(clock, e);
    ParsedFields(clock + "." + e, clock, ts, ns, e, millis);
  }

  lemma ParsedFields(text: string, clock: string, ts: seq<string>, ns: seq<int>, e: string, millis: int)
    requires '.' in text && Split(text, '.') == [clock, e] && Split(clock, ':') == ts && 2 <= |ts| == |ns| <= 4
    requires forall i :: 0 <= i < |ts| ==> ParseInt(ts[i]) == Some(ns[i])
    requires |e| == 3 && ParseInt(e) == Some(millis)
    ensures ParseTime(text) ==
      Ok(Seconds(if |ns| == 4 then ns[0] else 0, if |ns| >= 3 then ns[|ns| - 3] else 0,
                 ns[|ns| - 2], ns[|ns| - 1], millis))
  {
  }

  // ---- shorter clock texts ----

  function Clock3(b: string, c: string, d: string): string { b + ":" + c + ":" + d }

  function Clock2(c: string, d: string): string { c + ":" + d }

  /** Hours, minutes and seconds: both parsers read them. */
  lemma ThreeFields(b: string, c: string, d: string, e: string, hours: int, minutes: int, secs: int, millis: int)
    requires Reads(b, hours) && Reads(c, minutes) && ReadsDigits(d, secs) && ReadsDigits(e, millis) && |e| == 3
    ensures TimeToSeconds(Clock3(b, c, d) + "." + e) == Ok(Seconds(0, hours, minutes, secs, millis))
    ensures ParseTime(Clock3(b, c, d) + "." + e) == Ok(Seconds(0, hours, minutes, secs, millis))
  {
    FirstReadsThree(b, c, d, e, hours, minutes, secs, millis);
    SplitClock3(b, c, d);
    NoPoint3(b, c, d);
    PointedReads(Clock3(b, c, d), [b, c, d], [hours, minutes, secs], e, millis);
  }

  lemma FirstReadsThree(b: string, c: string, d: string, e: string, hours: int, minutes: int, secs: int, millis: int)
    requires Reads(b, hours) && Reads(c, minutes) && ReadsDigits(d, secs) && ReadsDigits(e, millis) && |e| == 3
    ensures TimeToSeconds(Clock3(b, c, d) + "." + e) == Ok(Seconds(0, hours, minutes, secs, millis))
  {
    var text := Clock3(b, c, d) + "." + e;
    ClockText3(b, c, d, e);
    StripKeeps(text);
    DecimalReads(d, e);
    ThreeRead(text, [b, c, d + "." + e], hours, minutes, secs as real + millis as real / 1000.0);
  }

  lemma ClockGroups3(b: string, c: string, d: string)
    ensures Clock3(b, c, d) == b + [':'] + (c + [':'] + d)
  {
  }

  lemma SplitClock3(b: string, c: string, d: string)
    requires ':' !in b && ':' !in c && ':' !in d
    ensures Split(Clock3(b, c, d), ':') == [b, c, d]
  {
    ClockGroups3(b, c, d);
    SplitThree(b, c, d);
  }

  lemma ClockText3(b: string, c: string, d: string, e: string)
    requires ':' !in b && ':' !in c && ':' !in d && ':' !in e && b != [] && e != []
    ensures var text := Clock3(b, c, d) + "." + e;
            && Split(text, ':') == [b, c, d + "." + e]
            && text != [] && text[0] == b[0] && text[|text| - 1] == e[|e| - 1]
  {
    LastField(d, e);
    assert Clock3(b, c, d) + "." + e == Clock3(b, c, d + "." + e);
    SplitClock3(b, c, d + "." + e);
  }

  /** Minutes and seconds: the first parser drops the minutes. */
  lemma TwoFields(c: string, d: string, e: string, minutes: int, secs: int, millis: int)
    requires Reads(c, minutes) && ReadsDigits(d, secs) && ReadsDigits(e, millis) && |e| == 3
    ensures TimeToSeconds(Clock2(c, d) + "." + e) == Ok(Seconds(0, 0, 0, secs, millis))
    ensures ParseTime(Clock2(c, d) + "." + e) == Ok(Seconds(0, 0, minutes, secs, millis))
    ensures TimeToSeconds(Clock2(c, d) + "." + e) == ParseTime(Clock2(c, d) + "." + e) <==> minutes == 0
  {
    FirstReadsTwo(c, d, e, minutes, secs, millis);
    SplitClock2(c, d);
    NoPoint2(c, d);
    PointedReads(Clock2(c, d), [c, d], [minutes, secs], e, millis);
  }

  lemma FirstReadsTwo(c: string, d: string, e: string, minutes: int, secs: int, millis: int)
    requires Reads(c, minutes) && ReadsDigits(d, secs) && ReadsDigits(e, millis) && |e| == 3
    ensures TimeToSeconds(Clock2(c, d) + "." + e) == Ok(Seconds(0, 0, 0, secs, millis))
  {
    var text := Clock2(c, d) + "." + e;
    ClockText2(c, d, e);
    StripKeeps(text);
    DecimalReads(d, e);
    TwoRead(text, [c, d + "." + e], secs as real + millis as real / 1000.0);
  }

  lemma SplitClock2(c: string, d: string)
    requires ':' !in c && ':' !in d
    ensures Split(Clock2(c, d), ':') == [c, d]
  {
    assert Clock2(c, d) == c + [':'] + d;
    SplitTwo(c, d);
  }

  lemma ClockText2(c: string, d: string, e: string)
    requires ':' !in c && ':' !in d && ':' !in e && c != [] && e != []
    ensures var text := Clock2(c, d) + "." + e;
            && Split(text, ':') == [c, d + "." + e]
            && text != [] && text[0] == c[0] && text[|text| - 1] == e[|e| - 1]
  {
    LastField(d, e);
    assert Clock2(c, d) + "." + e == Clock2(c, d + "." + e);
    SplitClock2(c, d + "." + e);
  }

  /** The seconds field, with its point, has no colon. */
  lemma LastField(d: string, e: string)
    requires ':' !in d && ':' !in e
    ensures ':' !in d + "." + e
  {
    assert ':' !in ".";
    NoChar(d, ".", ':');
    NoChar(d + ".", e, ':');
  }

  lemma IntRead(p: string, v: int)
    requires ParseInt(p) == Some(v)
    ensures AsInt(p) == v
  {
  }

  lemma ThreeRead(text: string, parts: seq<string>, hours: int, minutes: int, sec: real)
    requires Strip(text) == text && Split(text, ':') == parts && |parts| == 3
    requires ParseInt(parts[0]) == Some(hours) && ParseInt(parts[1]) == Some(minutes) && AsFloat(parts[2]) == Ok(sec)
    ensures TimeToSeconds(text) == Ok((hours * 3600 + minutes * 60) as real + sec)
  {
    IntRead(parts[0], hours);
    IntRead(parts[1], minutes);
    assert ((0 * 24 + hours) * 60 + minutes) * 60 == hours * 3600 + minutes * 60;
  }

  lemma TwoRead(text: string, parts: seq<string>, sec: real)
    requires Strip(text) == text && Split(text, ':') == parts && |parts| == 2 && AsFloat(parts[1]) == Ok(sec)
    ensures TimeToSeconds(text) == Ok(sec)
  {
  }

  lemma NoPoint2(c: string, d: string)
    requires '.' !in c && '.' !in d
    ensures '.' !in Clock2(c, d)
  {
    assert '.' !in ":";
    NoChar(c, ":", '.');
    NoChar(c + ":", d, '.');
  }

  lemma NoPoint3(b: string, c: string, d: string)
    requires '.' !in b && '.' !in c && '.' !in d
    ensures '.' !in Clock3(b, c, d)
  {
    NoPoint2(b, c);
    assert '.' !in ":";
    NoChar(b + ":" + c, ":", '.');
    NoChar(b + ":" + c + ":", d, '.');
  }
}
