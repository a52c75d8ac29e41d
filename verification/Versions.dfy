/** Service versions: dotted numbers, their order, and the admission gate on version changes. */
module Versions {
  import opened Wrappers
  import opened TimeOfDay

  type Version = seq<nat>

  // ---- Parsing dotted numbers, with an optional leading v ----

  function SplitDots(s: string): (parts: seq<string>)
    ensures |parts| >= 1
  {
    if s == "" then [""]
    else
      var rest := SplitDots(s[1..]);
      if s[0] == '.' then [""] + rest else [[s[0]] + rest[0]] + rest[1..]
  }

  predicate NumberText(p: string) {
    p != "" && AllDigits(p)
  }

  function Unprefixed(s: string): string {
    if s != "" && s[0] == 'v' then s[1..] else s
  }

  function ParseVersion(s: string): (v: Option<Version>)
    ensures v.Some? ==> |v.value| >= 1
  {
    var parts := SplitDots(Unprefixed(s));
    if forall i :: 0 <= i < |parts| ==> NumberText(parts[i])
    then Some(seq(|parts|, i requires 0 <= i < |parts| && NumberText(parts[i]) => Number(parts[i])))
    else None
  }

  lemma UnsetDoesNotParse(s: string)
    requires s == ""
    ensures ParseVersion(s).None?
  {
    var parts := SplitDots(Unprefixed(s));
    assert Unprefixed(s) == "" && parts == [""];
    assert !NumberText(parts[0]);
  }

  // ---- Printing ----

  /** The printed form has at least three segments. */
  function Padded(v: Version): Version {
    if |v| >= 3 then v else v + seq(3 - |v|, _ => 0)
  }

  function Dotted(v: Version): string {
    if v == [] then ""
    else if |v| == 1 then Decimal(v[0])
    else Decimal(v[0]) + "." + Dotted(v[1..])
  }

  function VersionString(v: Version): string {
    Dotted(Padded(v))
  }

  lemma {:induction false} DecimalNumber(n: nat)
    ensures NumberText(Decimal(n)) && Number(Decimal(n)) == n
  {
    if n >= 10 {
      DecimalNumber(n / 10);
      var d := Decimal(n);
      assert d[..|d| - 1] == Decimal(n / 10);
    } else {
      NumberOfOne(Decimal(n));
    }
  }

  lemma {:induction false} SplitDigits(p: string, rest: string)
    requires AllDigits(p)
    ensures SplitDots(p) == [p]
    ensures SplitDots(p + "." + rest) == [p] + SplitDots(rest)
  {
    if p == "" {
      assert (p + "." + rest)[1..] == rest;
    } else {
      SplitDigits(p[1..], rest);
      assert (p + "." + rest)[1..] == p[1..] + "." + rest;
      assert [p[0]] + p[1..] == p;
    }
  }

  lemma {:induction false} SplitDotted(v: Version)
    requires |v| >= 1
    ensures |SplitDots(Dotted(v))| == |v|
    ensures forall i :: 0 <= i < |v| ==> SplitDots(Dotted(v))[i] == Decimal(v[i])
    decreases |v|
  {
    DecimalNumber(v[0]);
    if |v| == 1 {
      SplitDigits(Decimal(v[0]), "");
    } else {
      SplitDigits(Decimal(v[0]), Dotted(v[1..]));
      SplitDotted(v[1..]);
    }
  }

  lemma DottedStartsWithDigit(v: Version)
    requires |v| >= 1
    ensures Dotted(v) != "" && Digit(Dotted(v)[0])
  {
    DecimalNumber(v[0]);
    assert Digit(Decimal(v[0])[0]);
  }

  /** A printed version parses to itself. */
  lemma ParseOfDotted(v: Version)
    requires |v| >= 1
    ensures ParseVersion(Dotted(v)) == Some(v)
  {
    DottedStartsWithDigit(v);
    SplitDotted(v);
    forall i | 0 <= i < |v|
      ensures NumberText(Decimal(v[i])) && Number(Decimal(v[i])) == v[i]
    {
      DecimalNumber(v[i]);
    }
    assert ParseVersion(Dotted(v)).value == v;
  }

  // ---- Which texts are versions ----

  function JoinDots(parts: seq<string>): string
    requires |parts| >= 1
  {
    if |parts| == 1 then parts[0] else parts[0] + "." + JoinDots(parts[1..])
  }

  lemma {:induction false} JoinOfSplit(s: string)
    ensures JoinDots(SplitDots(s)) == s
  {
    if s != "" {
      JoinOfSplit(s[1..]);
      var rest := SplitDots(s[1..]);
      if s[0] == '.' {
        assert ([""] + rest)[1..] == rest;
      } else {
        var parts := [[s[0]] + rest[0]] + rest[1..];
        assert parts[1..] == rest[1..];
        assert JoinDots(parts) == [s[0]] + JoinDots(rest);
      }
    }
  }

  lemma {:induction false} SplitOfJoin(parts: seq<string>)
    requires |parts| >= 1 && forall i :: 0 <= i < |parts| ==> NumberText(parts[i])
    ensures SplitDots(JoinDots(parts)) == parts
    decreases |parts|
  {
    assert NumberText(parts[0]);
    if |parts| == 1 {
      SplitDigits(parts[0], "");
    } else {
      SplitDigits(parts[0], JoinDots(parts[1..]));
      SplitOfJoin(parts[1..]);
    }
  }

  /** The text is made of these groups of digits, with dots between them and perhaps a leading v. */
  predicate Spells(s: string, parts: seq<string>) {
    && |parts| >= 1 && (forall i :: 0 <= i < |parts| ==> NumberText(parts[i]))
    && (s == JoinDots(parts) || s == "v" + JoinDots(parts))
  }

  lemma SpelledParts(s: string, parts: seq<string>)
    requires Spells(s, parts)
    ensures SplitDots(Unprefixed(s)) == parts
  {
    SplitOfJoin(parts);
    assert NumberText(parts[0]);
    var text := JoinDots(parts);
    assert text != "" && text[0] == parts[0][0];
    assert Unprefixed("v" + text) == text && Unprefixed(text) == text;
  }

  /** Exactly the dotted numbers parse, with or without a leading v, and each segment to the number it writes. */
  lemma ParseVersionIff(s: string)
    ensures ParseVersion(s).Some? <==> exists parts :: Spells(s, parts)
    ensures forall parts :: Spells(s, parts) ==>
              && |ParseVersion(s).value| == |parts|
              && forall i :: 0 <= i < |parts| ==> Spells(s, parts) && ParseVersion(s).value[i] == Number(parts[i])
  {
    if ParseVersion(s).Some? {
      var parts := SplitDots(Unprefixed(s));
      JoinOfSplit(Unprefixed(s));
      assert s == Unprefixed(s) || s == "v" + Unprefixed(s);
      assert Spells(s, parts);
    }
    forall parts | Spells(s, parts)
      ensures ParseVersion(s).Some? && |ParseVersion(s).value| == |parts|
      ensures forall i :: 0 <= i < |parts| ==> ParseVersion(s).value[i] == Number(parts[i])
    {
      SpelledParts(s, parts);
    }
  }

  // ---- The order ----

  function Segment(v: Version, i: nat): nat {
    if i < |v| then v[i] else 0
  }

  /** Precedence as in item 11 of Semantic Versioning 2.0.0, for plain numbers and with missing segments read
      as zero: the first segment that differs decides. */
  ghost predicate Precedes(a: Version, b: Version) {
    exists i: nat :: Segment(a, i) < Segment(b, i) && forall j: nat :: j < i ==> Segment(a, j) == Segment(b, j)
  }

  function Rest(v: Version): Version {
    if v == [] then [] else v[1..]
  }

  function Compare(a: Version, b: Version): (c: int)
    decreases |a| + |b|
  {
    if a == [] && b == [] then 0
    else if Segment(a, 0) < Segment(b, 0) then -1
    else if Segment(a, 0) > Segment(b, 0) then 1
    else Compare(Rest(a), Rest(b))
  }

  lemma PrecedesStep(a: Version, b: Version)
    ensures Precedes(a, b) <==>
            Segment(a, 0) < Segment(b, 0) || (Segment(a, 0) == Segment(b, 0) && Precedes(Rest(a), Rest(b)))
  {
    assert forall v: Version, i: nat :: Segment(Rest(v), i) == Segment(v, i + 1);
    if Precedes(a, b) {
      var i: nat :| Segment(a, i) < Segment(b, i) && forall j: nat :: j < i ==> Segment(a, j) == Segment(b, j);
      if i > 0 {
        assert Segment(Rest(a), i - 1) < Segment(Rest(b), i - 1);
        assert forall j: nat :: j < i - 1 ==> Segment(Rest(a), j) == Segment(Rest(b), j);
      }
    }
    if Segment(a, 0) == Segment(b, 0) && Precedes(Rest(a), Rest(b)) {
      var i: nat :| Segment(Rest(a), i) < Segment(Rest(b), i) &&
                    forall j: nat :: j < i ==> Segment(Rest(a), j) == Segment(Rest(b), j);
      assert Segment(a, i + 1) < Segment(b, i + 1);
      forall j: nat | j < i + 1
        ensures Segment(a, j) == Segment(b, j)
      {
        if j > 0 {
          assert Segment(Rest(a), j - 1) == Segment(Rest(b), j - 1);
        }
      }
    }
  }

  /** The segment-by-segment comparison decides precedence. */
  lemma {:induction false} CompareDecidesPrecedence(a: Version, b: Version)
    ensures Compare(a, b) < 0 <==> Precedes(a, b)
    ensures Compare(a, b) > 0 <==> Precedes(b, a)
    ensures Compare(a, b) == 0 <==> forall i: nat :: Segment(a, i) == Segment(b, i)
    decreases |a| + |b|
  {
    PrecedesStep(a, b);
    PrecedesStep(b, a);
    if a == [] && b == [] {
      assert !Precedes([], []);
    } else {
      CompareDecidesPrecedence(Rest(a), Rest(b));
      assert forall v: Version, i: nat :: Segment(Rest(v), i) == Segment(v, i + 1);
      if forall i: nat :: Segment(Rest(a), i) == Segment(Rest(b), i) {
        forall i: nat | i > 0 ensures Segment(a, i) == Segment(b, i) {
          assert Segment(Rest(a), i - 1) == Segment(Rest(b), i - 1);
        }
      } else {
        var i: nat :| Segment(Rest(a), i) != Segment(Rest(b), i);
        assert Segment(a, i + 1) != Segment(b, i + 1);
      }
    }
  }

  lemma {:induction false} TrailingZeros(a: Version, b: Version, n: nat)
    ensures Compare(a, b + seq(n, _ => 0)) == Compare(a, b)
    decreases |a| + |b| + n
  {
    var padded := b + seq(n, _ => 0);
    assert forall i: nat :: Segment(padded, i) == Segment(b, i);
    CompareDecidesPrecedence(a, b);
    CompareDecidesPrecedence(a, padded);
    assert Precedes(a, padded) <==> Precedes(a, b);
    assert Precedes(padded, a) <==> Precedes(b, a);
    CompareIsASign(a, b);
    CompareIsASign(a, padded);
  }

  lemma {:induction false} CompareIsASign(a: Version, b: Version)
    ensures -1 <= Compare(a, b) <= 1
    decreases |a| + |b|
  {
    if a != [] || b != [] {
      CompareIsASign(Rest(a), Rest(b));
    }
  }

  predicate AtMost(a: Version, b: Version) {
    Compare(a, b) <= 0
  }

  lemma {:induction false} AtMostIsATotalPreorder(a: Version, b: Version, c: Version)
    ensures AtMost(a, a)
    ensures AtMost(a, b) || AtMost(b, a)
    ensures AtMost(a, b) && AtMost(b, c) ==> AtMost(a, c)
    decreases |a| + |b| + |c|
  {
    if a != [] || b != [] || c != [] {
      AtMostIsATotalPreorder(Rest(a), Rest(b), Rest(c));
    }
  }

  function Max(a: Version, b: Version): Version {
    if AtMost(a, b) then b else a
  }

  // ---- The gate ----

  datatype VersionError = BadObserved | BadOldDesired | BadNewDesired | BadConstraint | Immutable

  function ValidateUpdateVersion(oldObserved: string, oldDesired: string, newDesired: string)
    : Result<(), VersionError>
  {
    match (ParseVersion(oldObserved), ParseVersion(oldDesired), ParseVersion(newDesired))
    case (None, _, _) => Err(BadObserved)
    case (Some(_), None, _) => Err(BadOldDesired)
    case (Some(_), Some(_), None) => Err(BadNewDesired)
    case (Some(observed), Some(old_), Some(new_)) =>
      // The constraint "<= observed" is built as text and parsed again.
      match ParseVersion(VersionString(observed))
      case None => Err(BadConstraint)
      case Some(limit) => if Compare(new_, old_) > 0 && !AtMost(new_, limit) then Err(Immutable) else Ok(())
  }

  /** The check on an update: an unchanged text passes, and an unset version falls back to the observed one. */
  function CompareVersion(observed: string, oldDesired: string, newDesired: string): Result<(), VersionError> {
    if oldDesired == newDesired then Ok(())
    else ValidateUpdateVersion(observed, if oldDesired == "" then observed else oldDesired, newDesired)
  }

  /** The reparsed constraint bounds the same versions as the observed version. */
  lemma ConstraintIsObserved(observed: Version, v: Version)
    requires |observed| >= 1
    ensures ParseVersion(VersionString(observed)).Some?
    ensures AtMost(v, ParseVersion(VersionString(observed)).value) <==> AtMost(v, observed)
  {
    ParseOfDotted(Padded(observed));
    if |observed| < 3 {
      TrailingZeros(v, observed, 3 - |observed|);
    }
  }

  predicate AllParse(observed: string, oldDesired: string, newDesired: string) {
    ParseVersion(observed).Some? && ParseVersion(oldDesired).Some? && ParseVersion(newDesired).Some?
  }

  /** A change is admitted exactly when all three versions parse and the new desired version is at most the larger of
      the old desired and the observed version. In particular every downgrade is admitted. */
  lemma GateIff(observed: string, oldDesired: string, newDesired: string)
    ensures ValidateUpdateVersion(observed, oldDesired, newDesired).Ok? <==>
            && AllParse(observed, oldDesired, newDesired)
            && AtMost(ParseVersion(newDesired).value, Max(ParseVersion(oldDesired).value, ParseVersion(observed).value))
  {
    if AllParse(observed, oldDesired, newDesired) {
      ConstraintIsObserved(ParseVersion(observed).value, ParseVersion(newDesired).value);
      var o, d, n := ParseVersion(observed).value, ParseVersion(oldDesired).value, ParseVersion(newDesired).value;
      AtMostIsATotalPreorder(n, d, o);
      AtMostIsATotalPreorder(n, o, d);
      AtMostIsATotalPreorder(o, d, n);
    }
  }

  /** The first text that does not parse is reported, in the order observed, old desired, new desired; the immutable
      error is kept for versions that all parse. */
  lemma GateErrors(observed: string, oldDesired: string, newDesired: string)
    ensures var r := ValidateUpdateVersion(observed, oldDesired, newDesired);
            && (r == Err(BadObserved) <==> ParseVersion(observed).None?)
            && (r == Err(BadOldDesired) <==> ParseVersion(observed).Some? && ParseVersion(oldDesired).None?)
            && (r == Err(BadNewDesired) <==>
                ParseVersion(observed).Some? && ParseVersion(oldDesired).Some? && ParseVersion(newDesired).None?)
            && r != Err(BadConstraint)
  {
    if ParseVersion(observed).Some? {
      ConstraintIsObserved(ParseVersion(observed).value, []);
    }
  }

  predicate UpTo(a: string, b: string) {
    ParseVersion(a).Some? && ParseVersion(b).Some? && AtMost(ParseVersion(a).value, ParseVersion(b).value)
  }

  /** The check of an update: the same text always passes; from an unset version everything up to the observed one
      does; and otherwise everything up to the larger of old desired and observed. */
  lemma UpdateGateIff(observed: string, oldDesired: string, newDesired: string)
    ensures CompareVersion(observed, oldDesired, newDesired).Ok? <==>
            || oldDesired == newDesired
            || (oldDesired == "" && UpTo(newDesired, observed))
            || (AllParse(observed, oldDesired, newDesired) &&
                (UpTo(newDesired, oldDesired) || UpTo(newDesired, observed)))
  {
    UnsetDoesNotParse("");
    GateIff(observed, if oldDesired == "" then observed else oldDesired, newDesired);
    if AllParse(observed, oldDesired, newDesired) {
      var o, d, n := ParseVersion(observed).value, ParseVersion(oldDesired).value, ParseVersion(newDesired).value;
      AtMostIsATotalPreorder(n, d, o);
      AtMostIsATotalPreorder(n, o, d);
      AtMostIsATotalPreorder(o, d, n);
    }
  }

  // ---- The gate over runs ----

  datatype Instance = Instance(desired: string, observed: string)
  datatype Step = ChangeDesired(version: string) | Report(version: string)

  function Apply(s: Instance, step: Step): Instance {
    match step
    case ChangeDesired(v) => if CompareVersion(s.observed, s.desired, v).Ok? then s.(desired := v) else s
    case Report(v) => s.(observed := v)
  }

  function Run(s: Instance, steps: seq<Step>): Instance
    decreases |steps|
  {
    if steps == [] then s else Run(Apply(s, steps[0]), steps[1..])
  }

  /** Unset and unparseable texts count as below every version. */
  predicate TextAtMost(a: string, b: string) {
    ParseVersion(a).Some? ==> ParseVersion(b).Some? && AtMost(ParseVersion(a).value, ParseVersion(b).value)
  }

  predicate Rising(s: Instance, steps: seq<Step>)
    decreases |steps|
  {
    steps == [] ||
    ((steps[0].Report? ==> TextAtMost(s.observed, steps[0].version)) && Rising(Apply(s, steps[0]), steps[1..]))
  }

  lemma TextAtMostTransitive(a: string, b: string, c: string)
    requires TextAtMost(a, b) && TextAtMost(b, c)
    ensures TextAtMost(a, c)
  {
    if ParseVersion(a).Some? {
      AtMostIsATotalPreorder(ParseVersion(a).value, ParseVersion(b).value, ParseVersion(c).value);
    }
  }

  /** Bounded by the start or by what is observed now. */
  predicate Bounded(first: string, s: Instance) {
    TextAtMost(s.desired, first) || TextAtMost(s.desired, s.observed)
  }

  lemma GateStep(first: string, s: Instance, step: Step)
    requires Bounded(first, s)
    requires step.Report? ==> TextAtMost(s.observed, step.version)
    ensures Bounded(first, Apply(s, step))
    ensures s.desired != "" ==> Apply(s, step).desired != ""
  {
    UnsetDoesNotParse("");
    var t := Apply(s, step);
    if step.Report? {
      if TextAtMost(s.desired, s.observed) {
        TextAtMostTransitive(s.desired, s.observed, t.observed);
      }
    } else if t != s {
      var previous := if s.desired == "" then s.observed else s.desired;
      GateIff(s.observed, previous, t.desired);
      assert TextAtMost(t.desired, previous) || TextAtMost(t.desired, s.observed);
      if TextAtMost(t.desired, previous) && previous == s.desired {
        if TextAtMost(s.desired, first) {
          TextAtMostTransitive(t.desired, s.desired, first);
        } else {
          TextAtMostTransitive(t.desired, s.desired, s.observed);
        }
      }
    }
  }

  lemma {:induction false} GateRun(first: string, s: Instance, steps: seq<Step>)
    requires Bounded(first, s) && Rising(s, steps)
    ensures Bounded(first, Run(s, steps))
    ensures s.desired != "" ==> Run(s, steps).desired != ""
    decreases |steps|
  {
    if steps != [] {
      GateStep(first, s, steps[0]);
      GateRun(first, Apply(s, steps[0]), steps[1..]);
    }
  }

  /** Over any run with non-decreasing reports the desired version never exceeds the larger of the initial
      desired and the currently observed one, and once set it is never unset. */
  lemma DesiredStaysBounded(start: Instance, steps: seq<Step>)
    requires Rising(start, steps)
    ensures var s := Run(start, steps);
            && (TextAtMost(s.desired, start.desired) || TextAtMost(s.desired, s.observed))
            && (start.desired != "" ==> s.desired != "")
  {
    var d := ParseVersion(start.desired);
    if d.Some? {
      AtMostIsATotalPreorder(d.value, d.value, d.value);
    }
    GateRun(start.desired, start, steps);
  }

  // ---- Same major version ----

  function CompareMajorVersion(a: string, b: string): Result<bool, ()> {
    match (ParseVersion(a), ParseVersion(b))
    case (Some(va), Some(vb)) => Ok(va[0] == vb[0])
    case _ => Err(())
  }

  function Prefixed(s: string, v: bool): string {
    if v then "v" + s else s
  }

  /** Told from the texts: two dotted versions have the same major exactly if their first numbers are equal, whatever
      follows and whether or not they start with a v. */
  lemma SameMajorOfDotted(a: Version, b: Version, va: bool, vb: bool)
    requires |a| >= 1 && |b| >= 1
    ensures CompareMajorVersion(Prefixed(Dotted(a), va), Prefixed(Dotted(b), vb)) == Ok(a[0] == b[0])
  {
    ParseOfPrefixed(a, va);
    ParseOfPrefixed(b, vb);
  }

  lemma ParseOfPrefixed(a: Version, v: bool)
    requires |a| >= 1
    ensures ParseVersion(Prefixed(Dotted(a), v)) == Some(a)
  {
    ParseOfDotted(a);
    DottedStartsWithDigit(a);
    assert Unprefixed("v" + Dotted(a)) == Dotted(a) == Unprefixed(Dotted(a));
  }

  /** The texts spell versions whose first groups of digits write the same number. */
  ghost predicate SameMajor(a: string, b: string) {
    exists p, q :: Spells(a, p) && Spells(b, q) && Number(p[0]) == Number(q[0])
  }

  /** Two texts have the same major exactly if both spell versions that begin with the same number; the comparison is
      an error exactly if one of them spells none. */
  lemma SameMajorIff(a: string, b: string)
    ensures CompareMajorVersion(a, b) == Ok(true) <==> SameMajor(a, b)
    ensures CompareMajorVersion(a, b).Err? <==> !(exists p :: Spells(a, p)) || !(exists q :: Spells(b, q))
  {
    ParseVersionIff(a);
    ParseVersionIff(b);
    if CompareMajorVersion(a, b).Ok? {
      var p :| Spells(a, p);
      var q :| Spells(b, q);
      assert ParseVersion(a).value[0] == Number(p[0]) && ParseVersion(b).value[0] == Number(q[0]);
    }
    if SameMajor(a, b) {
      var p, q :| Spells(a, p) && Spells(b, q) && Number(p[0]) == Number(q[0]);
      assert ParseVersion(a).value[0] == Number(p[0]) && ParseVersion(b).value[0] == Number(q[0]);
    }
  }

  lemma FourteenAndFourteenFive()
    ensures SameMajor("14", "14.5") && !SameMajor("14", "15.14")
  {
    var a, b, c := [14], [14, 5], [15, 14];
    assert Decimal(14) == "14" && Decimal(5) == "5" && Decimal(15) == "15";
    assert b[1..] == [5] && c[1..] == [14];
    assert Dotted(a) == "14" && Dotted(b) == "14.5" && Dotted(c) == "15.14";
    SameMajorOfDotted(a, b, false, false);
    SameMajorOfDotted(a, c, false, false);
    SameMajorIff("14", "14.5");
    SameMajorIff("14", "15.14");
  }
}
