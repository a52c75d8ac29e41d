/** Times of day: the text pattern of the API, its parser, and the text printed from a backup schedule. */
module TimeOfDay {
  import opened Wrappers

  datatype Time = Time(hour: int, minute: int, second: int)
  datatype TimeError = EmptyTime | BadFormat

  // ---- The pattern ^([0-1]?[0-9]|2[0-3]):([0-5][0-9]):([0-5][0-9])$ ----

  predicate Digit(c: char) {
    '0' <= c <= '9'
  }

  predicate HourText(h: string) {
    || (|h| == 1 && Digit(h[0]))
    || (|h| == 2 && (h[0] == '0' || h[0] == '1') && Digit(h[1]))
    || (|h| == 2 && h[0] == '2' && '0' <= h[1] <= '3')
  }

  predicate SixtyText(m: string) {
    |m| == 2 && '0' <= m[0] <= '5' && Digit(m[1])
  }

  function Joined(h: string, m: string, s: string): string {
    h + ":" + m + ":" + s
  }

  ghost predicate InPattern(t: string) {
    exists h, m, s :: HourText(h) && SixtyText(m) && SixtyText(s) && t == Joined(h, m, s)
  }

  /** The three groups of a match. */
  function FindSubmatch(t: string): Option<seq<string>> {
    var n := |t| - 6;
    if 1 <= n <= 2 && HourText(t[..n]) && t[n] == ':' &&
       SixtyText(t[n + 1..n + 3]) && t[n + 3] == ':' && SixtyText(t[n + 4..])
    then Some([t[..n], t[n + 1..n + 3], t[n + 4..]])
    else None
  }

  lemma SubmatchIff(t: string)
    ensures FindSubmatch(t).Some? <==> InPattern(t)
  {
    if FindSubmatch(t).Some? {
      var g := FindSubmatch(t).value;
      assert t == Joined(g[0], g[1], g[2]);
    }
    if InPattern(t) {
      var h, m, s :| HourText(h) && SixtyText(m) && SixtyText(s) && t == Joined(h, m, s);
      var n := |t| - 6;
      assert |h| == n;
      assert t[..n] == h && t[n + 1..n + 3] == m && t[n + 4..] == s;
    }
  }

  // ---- Parsing ----

  function DigitValue(c: char): nat
    requires Digit(c)
  {
    (c - '0') as nat
  }

  predicate AllDigits(s: string) {
    forall i :: 0 <= i < |s| ==> Digit(s[i])
  }

  function Number(s: string): nat
    requires AllDigits(s)
  {
    if s == "" then 0 else Number(s[..|s| - 1]) * 10 + DigitValue(s[|s| - 1])
  }

  lemma NumberOfPair(s: string)
    requires |s| == 2 && AllDigits(s)
    ensures Number(s) == DigitValue(s[0]) * 10 + DigitValue(s[1])
  {
    assert Number(s[..1]) == DigitValue(s[0]) by {
      assert s[..1][..0] == "" && s[..1][0] == s[0];
    }
  }

  lemma NumberOfOne(s: string)
    requires |s| == 1 && AllDigits(s)
    ensures Number(s) == DigitValue(s[0])
  {
    assert s[..0] == "";
  }

  function ParseTime(t: string): (r: Result<Time, TimeError>) {
    if t == "" then Err(EmptyTime)
    else match FindSubmatch(t)
      case None => Err(BadFormat)
      case Some(g) => Ok(Time(Number(g[0]), Number(g[1]), Number(g[2])))
  }

  lemma GroupValues(t: string)
    requires FindSubmatch(t).Some?
    ensures var g := FindSubmatch(t).value;
            && AllDigits(g[0]) && AllDigits(g[1]) && AllDigits(g[2])
            && 0 <= Number(g[0]) <= 23 && 0 <= Number(g[1]) <= 59 && 0 <= Number(g[2]) <= 59
  {
    var g := FindSubmatch(t).value;
    NumberOfPair(g[1]);
    NumberOfPair(g[2]);
    if |g[0]| == 1 {
      NumberOfOne(g[0]);
    } else {
      NumberOfPair(g[0]);
    }
  }

  /** Reads a group of decimal digits. */
  method ParseInt(part: string) returns (n: nat)
    requires AllDigits(part)
    ensures n == Number(part)
  {
    n := 0;
    var i := 0;
    while i < |part|
      invariant 0 <= i <= |part|
      invariant n == Number(part[..i])
    {
      assert part[..i + 1][..i] == part[..i];
      n := n * 10 + DigitValue(part[i]);
      i := i + 1;
    }
    assert part[..|part|] == part;
  }

  /** Accepts exactly the pattern, with an hour in 0..23 and minute and second in 0..59. */
  method Parse(t: string) returns (r: Result<Time, TimeError>)
    ensures r == ParseTime(t)
    ensures r.Ok? <==> InPattern(t)
    ensures r.Ok? ==> 0 <= r.value.hour <= 23 && 0 <= r.value.minute <= 59 && 0 <= r.value.second <= 59
    ensures r.Ok? ==> Writes(t, r.value.hour, r.value.minute, r.value.second)
    ensures r.Err? ==> (r.error.EmptyTime? <==> t == "")
  {
    SubmatchIff(t);
    ParseMeansText(t);
    if t == "" {
      return Err(EmptyTime);
    }
    var arr := FindSubmatch(t);
    if arr.None? {
      return Err(BadFormat);
    }
    GroupValues(t);
    var parts := new int[3];
    var i := 0;
    while i < 3
      invariant 0 <= i <= 3
      invariant forall j :: 0 <= j < i ==> AllDigits(arr.value[j]) && parts[j] == Number(arr.value[j])
    {
      parts[i] := ParseInt(arr.value[i]);
      i := i + 1;
    }
    return Ok(Time(parts[0], parts[1], parts[2]));
  }

  lemma ParseTimeInRange(t: string)
    ensures ParseTime(t).Ok? <==> InPattern(t)
    ensures ParseTime(t).Ok? ==>
              && 0 <= ParseTime(t).value.hour <= 23 && 0 <= ParseTime(t).value.minute <= 59
              && 0 <= ParseTime(t).value.second <= 59
  {
    SubmatchIff(t);
    if FindSubmatch(t).Some? {
      GroupValues(t);
    }
  }

  // ---- Printing ----

  function DigitChar(n: nat): char
    requires n < 10
  {
    '0' + n as char
  }

  function Decimal(n: nat): string {
    if n < 10 then [DigitChar(n)] else Decimal(n / 10) + [DigitChar(n % 10)]
  }

  /** The format %02d. */
  function Pad2(n: int): string {
    if n < 0 then "-" + Decimal(-n)
    else if n < 10 then "0" + Decimal(n)
    else Decimal(n)
  }

  function Print(hour: int, minute: int): string {
    Joined(Pad2(hour), Pad2(minute), "00")
  }

  lemma Pad2Number(n: int)
    requires 0 <= n < 100
    ensures |Pad2(n)| == 2 && AllDigits(Pad2(n)) && Number(Pad2(n)) == n
    ensures Pad2(n) == [DigitChar(n / 10), DigitChar(n % 10)]
  {
    if n >= 10 {
      assert Decimal(n / 10) == [DigitChar(n / 10)];
    }
    NumberOfPair(Pad2(n));
  }

  lemma Pad2OfNumber(s: string)
    requires |s| == 2 && AllDigits(s)
    ensures Pad2(Number(s)) == s
  {
    NumberOfPair(s);
    Pad2Number(Number(s));
  }

  /** The text writes this time of day: the hour with one digit or two, minute and second with two. */
  predicate Writes(t: string, hour: int, minute: int, second: int) {
    && 0 <= hour <= 23 && 0 <= minute <= 59 && 0 <= second <= 59
    && (t == Joined(Pad2(hour), Pad2(minute), Pad2(second)) || t == Joined(Decimal(hour), Pad2(minute), Pad2(second)))
  }

  lemma SixtyTextIff(m: string)
    ensures SixtyText(m) <==> exists n: nat :: n <= 59 && m == Pad2(n)
  {
    if SixtyText(m) {
      NumberOfPair(m);
      Pad2OfNumber(m);
      assert Number(m) <= 59;
    }
    forall n: nat | n <= 59
      ensures SixtyText(Pad2(n))
    {
      Pad2Number(n);
    }
  }

  lemma HourTexts(n: nat)
    requires n <= 23
    ensures HourText(Pad2(n)) && HourText(Decimal(n))
    ensures Decimal(n) == if n < 10 then [DigitChar(n)] else Pad2(n)
  {
    Pad2Number(n);
  }

  lemma GroupsOfJoined(h: string, m: string, s: string)
    requires HourText(h) && SixtyText(m) && SixtyText(s)
    ensures FindSubmatch(Joined(h, m, s)) == Some([h, m, s])
  {
    var t := Joined(h, m, s);
    var n := |t| - 6;
    assert t[..n] == h && t[n + 1..n + 3] == m && t[n + 4..] == s && t[n] == ':' && t[n + 3] == ':';
  }

  /** A text that writes a time of day parses to that time, with one digit or two for the hour. */
  lemma ParseOfText(t: string, hour: nat, minute: nat, second: nat)
    requires Writes(t, hour, minute, second)
    ensures ParseTime(t) == Ok(Time(hour, minute, second))
  {
    var m, s := Pad2(minute), Pad2(second);
    HourTexts(hour);
    SixtyTextIff(m);
    SixtyTextIff(s);
    Pad2Number(hour);
    Pad2Number(minute);
    Pad2Number(second);
    GroupsOfJoined(Pad2(hour), m, s);
    GroupsOfJoined(Decimal(hour), m, s);
    if hour < 10 {
      NumberOfOne(Decimal(hour));
    }
    GroupValues(t);
  }

  /** Whatever parses writes the time that it parses to. */
  lemma ParseMeansText(t: string)
    ensures ParseTime(t).Ok? ==>
              var time := ParseTime(t).value; Writes(t, time.hour, time.minute, time.second)
  {
    if FindSubmatch(t).Some? {
      var g := FindSubmatch(t).value;
      GroupValues(t);
      Pad2OfNumber(g[1]);
      Pad2OfNumber(g[2]);
      if |g[0]| == 2 {
        Pad2OfNumber(g[0]);
      } else {
        NumberOfOne(g[0]);
        HourTexts(Number(g[0]));
        assert g[0] == [g[0][0]] == Decimal(Number(g[0]));
      }
      assert t == Joined(g[0], g[1], g[2]);
    }
  }

  /** The parser is the inverse of writing: it answers a time exactly for the texts that write it. */
  lemma ParseIff(t: string, hour: int, minute: int, second: int)
    ensures ParseTime(t) == Ok(Time(hour, minute, second)) <==> Writes(t, hour, minute, second)
  {
    ParseMeansText(t);
    if Writes(t, hour, minute, second) {
      ParseOfText(t, hour, minute, second);
    }
  }

  lemma NineFifteen()
    ensures ParseTime("9:15:07") == ParseTime("09:15:07") == Ok(Time(9, 15, 7))
  {
    Pad2Number(9);
    Pad2Number(15);
    Pad2Number(7);
    assert "9:15:07" == Joined(Decimal(9), Pad2(15), Pad2(7)) && "09:15:07" == Joined(Pad2(9), Pad2(15), Pad2(7));
    ParseIff("9:15:07", 9, 15, 7);
    ParseIff("09:15:07", 9, 15, 7);
  }

  /** Printing and parsing returns the schedule exactly when it is a real time of day. */
  lemma ParseOfPrintIff(hour: int, minute: int)
    ensures ParseTime(Print(hour, minute)) == Ok(Time(hour, minute, 0)) <==> 0 <= hour <= 23 && 0 <= minute <= 59
  {
    var t := Print(hour, minute);
    ParseTimeInRange(t);
    if 0 <= hour <= 23 && 0 <= minute <= 59 {
      Pad2Number(hour);
      Pad2Number(minute);
      NumberOfPair("00");
      assert |t| == 8;
      assert t[..2] == Pad2(hour) && t[3..5] == Pad2(minute) && t[6..] == "00";
      assert t[2] == ':' && t[5] == ':';
      var h := Pad2(hour);
      assert h[0] == DigitChar(hour / 10) && h[1] == DigitChar(hour % 10);
      assert HourText(h);
      assert SixtyText(Pad2(minute));
      assert FindSubmatch(t) == Some([Pad2(hour), Pad2(minute), "00"]);
    }
  }

  /** The texts that survive a round trip: a two-digit hour and zero seconds. */
  predicate Canonical(t: string) {
    ParseTime(t).Ok? && |t| == 8 && ParseTime(t).value.second == 0
  }

  lemma CanonicalIff(t: string)
    ensures Canonical(t) <==>
            exists hour: nat, minute: nat ::
              hour <= 23 && minute <= 59 && t == Joined(Pad2(hour), Pad2(minute), "00")
  {
    Pad2Number(0);
    if Canonical(t) {
      PrintOfCanonical(t);
      ParseTimeInRange(t);
      var hour: nat, minute: nat := ParseTime(t).value.hour, ParseTime(t).value.minute;
      assert t == Joined(Pad2(hour), Pad2(minute), "00");
    }
    if hour: nat, minute: nat :|
      hour <= 23 && minute <= 59 && t == Joined(Pad2(hour), Pad2(minute), "00")
    {
      ParseOfText(t, hour, minute, 0);
      Pad2Number(hour);
      Pad2Number(minute);
    }
  }

  lemma PrintOfCanonical(t: string)
    requires Canonical(t)
    ensures Print(ParseTime(t).value.hour, ParseTime(t).value.minute) == t
  {
    GroupValues(t);
    var g := FindSubmatch(t).value;
    Pad2OfNumber(g[0]);
    Pad2OfNumber(g[1]);
    Pad2OfNumber(g[2]);
    Pad2Number(0);
    assert g[2] == Pad2(0) == "00";
    assert t == Joined(g[0], g[1], g[2]);
  }

  /** Parsing and printing returns the same text exactly for the canonical ones. */
  lemma PrintOfParseIff(t: string)
    requires ParseTime(t).Ok?
    ensures Print(ParseTime(t).value.hour, ParseTime(t).value.minute) == t <==> Canonical(t)
  {
    var time := ParseTime(t).value;
    ParseTimeInRange(t);
    if Canonical(t) {
      PrintOfCanonical(t);
    }
    if Print(time.hour, time.minute) == t {
      ParseOfPrintIff(time.hour, time.minute);
      Pad2Number(time.hour);
      Pad2Number(time.minute);
    }
  }
}
