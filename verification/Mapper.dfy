/** Raw settings as stored in a resource: decoding, encoding, validation, defaulting and comparison. */
module Mapper {
  import opened Wrappers
  import opened Settings
  import SettingsEngine

  /** A raw extension: no bytes at all, the document that the bytes parse to, or bytes that do not parse. */
  datatype Raw = Empty | Document(j: Json) | Malformed

  /** The document `null` decodes to a nil map, which reads as empty but cannot be written. */
  datatype Decoded = Mapping(m: Fields) | NilMap | DecodeError

  function ToMap(raw: Raw): Decoded {
    match raw
    case Empty => Mapping(map[])
    case Document(Null) => NilMap
    case Document(Obj(fields)) => Mapping(fields)
    case Document(_) => DecodeError
    case Malformed => DecodeError
  }

  function Contents(raw: Raw): Fields {
    match ToMap(raw)
    case Mapping(m) => m
    case _ => map[]
  }

  // ---- Encoding: a whole float is printed without a fraction and reads back as an integer ----

  predicate WholeInt64(x: real) {
    x.Floor as real == x && -0x8000_0000_0000_0000 <= x.Floor < 0x8000_0000_0000_0000
  }

  function Reread(j: Json): (r: Json) {
    match j
    case Float(x) => if WholeInt64(x) then Int(x.Floor) else j
    case Arr(items) => Arr(seq(|items|, i requires 0 <= i < |items| => Reread(items[i])))
    case Obj(fields) => Obj(map k | k in fields :: Reread(fields[k]))
    case _ => j
  }

  function RereadFields(m: Fields): Fields {
    map k | k in m :: Reread(m[k])
  }

  function ToRawExtension(m: Decoded): Raw {
    match m
    case Mapping(fields) => Document(Obj(RereadFields(fields)))
    case NilMap => Document(Null)
    case DecodeError => Malformed
  }

  /** Encoding twice gives the same document as encoding once. */
  lemma {:induction false} RereadStable(j: Json)
    ensures Reread(Reread(j)) == Reread(j)
  {
    match j
    case Arr(items) =>
      forall i | 0 <= i < |items|
        ensures Reread(Reread(items[i])) == Reread(items[i])
      {
        RereadStable(items[i]);
      }
      assert Reread(Reread(j)).items == Reread(j).items;
    case Obj(fields) =>
      forall k | k in fields
        ensures Reread(Reread(fields[k])) == Reread(fields[k])
      {
        RereadStable(fields[k]);
      }
      assert Reread(Reread(j)).fields == Reread(j).fields;
    case _ =>
  }

  /** The same value, as written and read back: numbers keep their value, a whole number in the range of 64-bit integers
      comes back as an integer, and everything else keeps its form. */
  ghost predicate SameValue(before: Json, after: Json) {
    match before
    case Float(x) =>
      if x.Floor as real == x && -0x8000_0000_0000_0000 <= x.Floor <= 0x7fff_ffff_ffff_ffff
      then after.Int? && after.i as real == x else after == before
    case Arr(items) =>
      after.Arr? && |after.items| == |items| && forall i :: 0 <= i < |items| ==> SameValue(items[i], after.items[i])
    case Obj(fields) =>
      after.Obj? && after.fields.Keys == fields.Keys &&
      forall k :: k in fields ==> SameValue(fields[k], after.fields[k])
    case _ => after == before
  }

  lemma {:induction false} EncodingKeepsValues(j: Json)
    ensures SameValue(j, Reread(j))
  {
    match j
    case Arr(items) =>
      forall i | 0 <= i < |items|
        ensures SameValue(items[i], Reread(j).items[i])
      {
        EncodingKeepsValues(items[i]);
      }
    case Obj(fields) =>
      forall k | k in fields
        ensures SameValue(fields[k], Reread(j).fields[k])
      {
        EncodingKeepsValues(fields[k]);
      }
    case _ =>
  }

  lemma {:induction false} LookupAfterReread(m: Fields, path: seq<string>)
    ensures Lookup(RereadFields(m), path) ==
            if Lookup(m, path).Some? then Some(Reread(Lookup(m, path).value)) else None
    decreases |path|
  {
    if path == [] {
      assert Reread(Obj(m)) == Obj(RereadFields(m));
    } else if path[0] in m && |path| > 1 && m[path[0]].Obj? {
      var fields := m[path[0]].fields;
      assert Reread(m[path[0]]) == Obj(RereadFields(fields));
      LookupAfterReread(fields, path[1..]);
    }
  }

  // ---- SetDefaults on raw settings ----

  type Schemas = map<string, Schema>

  datatype Defaulting = Output(raw: Raw) | UnknownSchema | ParseError | NilMapWrite

  function DefaultRaw(schemas: Schemas, name: string, input: Raw): (r: Defaulting) {
    if name !in schemas then UnknownSchema
    else match ToMap(input)
      case DecodeError => ParseError
      case NilMap => if Defaulted(schemas[name], map[]) != map[] then NilMapWrite else Output(Document(Null))
      case Mapping(m) => Output(ToRawExtension(Mapping(Defaulted(schemas[name], m))))
  }

  method SetDefaultsRaw(schemas: Schemas, name: string, input: Raw) returns (r: Defaulting)
    ensures r == DefaultRaw(schemas, name, input)
  {
    if name !in schemas {
      return UnknownSchema;
    }
    match ToMap(input) {
      case DecodeError => return ParseError;
      case NilMap =>
        var _, written := SettingsEngine.DefaultsOnly(schemas[name]);
        return if written then NilMapWrite else Output(ToRawExtension(NilMap));
      case Mapping(m) =>
        var inMap := SettingsEngine.Decode(m);
        var _ := SettingsEngine.SetDefaults(schemas[name], inMap);
        var out := SettingsEngine.Encode(inMap);
        return Output(ToRawExtension(Mapping(out)));
    }
  }

  /** Defaulting panics on exactly one kind of input: the document `null` under a schema with a usable default. */
  lemma NilMapWriteIff(schemas: Schemas, name: string, input: Raw)
    ensures DefaultRaw(schemas, name, input).NilMapWrite? <==>
            name in schemas && input == Document(Null) && HasDefaults(schemas[name])
  {
    if name in schemas {
      EmptyObjectGrowsIff(schemas[name]);
    }
  }

  function RereadEntry(v: Option<Json>): Option<Json> {
    if v.Some? then Some(Reread(v.value)) else None
  }

  /** Encoding does not make room for defaults: what is complete stays complete. */
  lemma {:induction false} CompleteAfterReread(sc: Schema, m: Fields)
    requires Defaulted(sc, m) == m
    ensures Defaulted(sc, RereadFields(m)) == RereadFields(m)
    decreases sc, 0
  {
    var n := RereadFields(m);
    forall k
      ensures At(Defaulted(sc, n), k) == At(n, k)
    {
      DefaultedAt(sc, m, k);
      DefaultedAt(sc, n, k);
      assert At(n, k) == RereadEntry(At(m, k));
      if k in sc.properties {
        EntryAfterReread(sc.properties[k], At(m, k));
      }
    }
    SameAt(Defaulted(sc, n), n);
  }

  lemma {:induction false} EntryAfterReread(sc: Schema, v: Option<Json>)
    requires Entry(sc, v) == v
    ensures Entry(sc, RereadEntry(v)) == RereadEntry(v)
    decreases sc, 1
  {
    if sc.Nested() && v.Some? && v.value.Obj? {
      var fields := v.value.fields;
      assert Defaulted(sc, fields) == fields;
      CompleteAfterReread(sc, fields);
      assert Reread(v.value) == Obj(RereadFields(fields));
    }
  }

  /** Applied to its own output, SetDefaults gives that output again. */
  lemma SetDefaultsIsIdempotent(schemas: Schemas, name: string, input: Raw)
    requires DefaultRaw(schemas, name, input).Output?
    ensures DefaultRaw(schemas, name, DefaultRaw(schemas, name, input).raw) == DefaultRaw(schemas, name, input)
  {
    if ToMap(input).Mapping? {
      var d := Defaulted(schemas[name], ToMap(input).m);
      Idempotent(schemas[name], ToMap(input).m);
      CompleteAfterReread(schemas[name], d);
      RereadStable(Obj(d));
      assert Reread(Obj(d)) == Obj(RereadFields(d));
      assert Reread(Obj(RereadFields(d))) == Obj(RereadFields(RereadFields(d)));
    }
  }

  /** What comes out of SetDefaults at a path of the settings. */
  function OutputAt(schemas: Schemas, name: string, input: Raw, path: seq<string>): Option<Json> {
    match DefaultRaw(schemas, name, input)
    case Output(Document(Obj(out))) => Lookup(out, path)
    case _ => None
  }

  /** SetDefaults fails exactly for an unknown schema and for settings that are neither absent, nor `null`, nor an
      object. */
  lemma SetDefaultsFailsIff(schemas: Schemas, name: string, input: Raw)
    ensures DefaultRaw(schemas, name, input).UnknownSchema? <==> name !in schemas
    ensures DefaultRaw(schemas, name, input).ParseError? <==>
            name in schemas && (input.Malformed? || (input.Document? && !input.j.Null? && !input.j.Obj?))
    ensures name in schemas && (input.Empty? || (input.Document? && input.j.Obj?)) ==>
              DefaultRaw(schemas, name, input).Output? && DefaultRaw(schemas, name, input).raw.Document? &&
              DefaultRaw(schemas, name, input).raw.j.Obj?
  {
  }

  /** What a user sets comes out of SetDefaults as the same value, at every path; objects may have gained keys. */
  lemma UserValuesComeOut(schemas: Schemas, name: string, m: Fields, path: seq<string>)
    requires name in schemas && Lookup(m, path).Some?
    ensures var out := OutputAt(schemas, name, Document(Obj(m)), path);
            var user := Lookup(m, path).value;
            out.Some? && (if user.Obj? then out.value.Obj? else SameValue(user, out.value))
  {
    var d := Defaulted(schemas[name], m);
    UserValuesSurvive(schemas[name], m, path);
    LookupAfterReread(d, path);
    assert OutputAt(schemas, name, Document(Obj(m)), path) == Lookup(RereadFields(d), path);
    EncodingKeepsValues(Lookup(m, path).value);
  }

  /** A default comes out of SetDefaults as the same value at every path that is free in the settings, absent settings
      having every path free; the text "null" and missing defaults do not. */
  lemma DefaultsComeOut(schemas: Schemas, name: string, input: Raw, path: seq<string>)
    requires name in schemas && (input.Empty? || (input.Document? && input.j.Obj?))
    requires Free(if input.Empty? then map[] else input.j.fields, path)
    requires SchemaAt(schemas[name], path).Some? && SchemaAt(schemas[name], path).value.properties == map[]
    ensures var d := SchemaAt(schemas[name], path).value.default;
            var out := OutputAt(schemas, name, input, path);
            if d == Null || d == Str("null") then out == None else out.Some? && SameValue(d, out.value)
  {
    var m := if input.Empty? then map[] else input.j.fields;
    DefaultsAppear(schemas[name], m, path);
    LookupAfterReread(Defaulted(schemas[name], m), path);
    EncodingKeepsValues(SchemaAt(schemas[name], path).value.default);
  }

  // ---- Validation ----

  predicate Scalar(j: Json) {
    j.Bool? || j.Int? || j.Float? || j.Str?
  }

  predicate AllScalar(m: Fields) {
    forall k :: k in m ==> Scalar(m[k])
  }

  predicate Admitted(raw: Raw) {
    !ToMap(raw).DecodeError? && AllScalar(Contents(raw))
  }

  /** Walks the map in an arbitrary order and stops at the first unsupported value. */
  method ValidateRawExtension(raw: Raw) returns (ok: bool)
    ensures ok <==> Admitted(raw)
  {
    if ToMap(raw).DecodeError? {
      return false;
    }
    var m := Contents(raw);
    var todo := m.Keys;
    while todo != {}
      invariant todo <= m.Keys
      invariant forall k :: k in m && k !in todo ==> Scalar(m[k])
      decreases todo
    {
      var k :| k in todo;
      if !Scalar(m[k]) {
        return false;
      }
      todo := todo - {k};
    }
    return true;
  }

  /** Validation accepts exactly absent settings, the document `null`, and objects of strings, booleans and numbers. */
  lemma AdmittedIff(raw: Raw)
    ensures Admitted(raw) <==>
            || raw.Empty?
            || (raw.Document? && raw.j.Null?)
            || (raw.Document? && raw.j.Obj? &&
                forall k :: k in raw.j.fields ==>
                  var v := raw.j.fields[k]; v.Str? || v.Bool? || v.Int? || v.Float?)
  {
  }

  /** A property under which a missing key stays missing or gets a scalar. */
  ghost predicate ScalarDefault(sc: Schema) {
    if sc.Nested() then !HasDefaults(sc) else sc.Usable() ==> Scalar(sc.default)
  }

  /** Every default that can reach the top level is a scalar. A flat schema with scalar defaults is one. */
  ghost predicate ScalarDefaults(sc: Schema) {
    forall k :: k in sc.properties ==> ScalarDefault(sc.properties[k])
  }

  predicate NoneOrScalar(v: Option<Json>) {
    v.Some? ==> Scalar(v.value)
  }

  lemma EntryScalarIff(sc: Schema)
    ensures ScalarDefault(sc) <==> NoneOrScalar(Entry(sc, None))
    ensures forall v :: Scalar(v) ==> Entry(sc, Some(v)) == Some(v)
  {
    EmptyObjectGrowsIff(sc);
  }

  lemma ScalarDefaultsKeepScalars(sc: Schema, m: Fields)
    requires ScalarDefaults(sc) && AllScalar(m)
    ensures AllScalar(Defaulted(sc, m))
  {
    var d := Defaulted(sc, m);
    forall k | k in d
      ensures Scalar(d[k])
    {
      DefaultedAt(sc, m, k);
      if k in sc.properties {
        EntryScalarIff(sc.properties[k]);
      }
    }
  }

  /** Validation is closed under defaulting for exactly these schemas. */
  lemma ClosedUnderDefaultingIff(sc: Schema)
    ensures ScalarDefaults(sc) <==> forall m :: AllScalar(m) ==> AllScalar(Defaulted(sc, m))
  {
    if ScalarDefaults(sc) {
      forall m | AllScalar(m)
        ensures AllScalar(Defaulted(sc, m))
      {
        ScalarDefaultsKeepScalars(sc, m);
      }
    } else {
      var k :| k in sc.properties && !ScalarDefault(sc.properties[k]);
      DefaultedAt(sc, map[], k);
      EntryScalarIff(sc.properties[k]);
      assert AllScalar(map[]) && !AllScalar(Defaulted(sc, map[]));
    }
  }

  /** What SetDefaults writes for admitted settings is admitted again. */
  lemma DefaultedSettingsAreAdmitted(schemas: Schemas, name: string, input: Raw)
    requires Admitted(input) && name in schemas && ScalarDefaults(schemas[name])
    requires DefaultRaw(schemas, name, input).Output?
    ensures Admitted(DefaultRaw(schemas, name, input).raw)
  {
    ScalarDefaultsKeepScalars(schemas[name], Contents(input));
  }

  /** No whole number is written as a float. */
  predicate PlainNumbers(m: Fields) {
    forall k :: k in m && m[k].Float? ==> !WholeInt64(m[k].x)
  }

  lemma RereadScalarsIff(m: Fields)
    requires AllScalar(m)
    ensures RereadFields(m) == m <==> PlainNumbers(m)
  {
    if PlainNumbers(m) {
      assert forall k :: k in m ==> RereadFields(m)[k] == m[k];
    } else {
      var k :| k in m && m[k].Float? && WholeInt64(m[k].x);
      assert RereadFields(m)[k] != m[k];
    }
  }

  /** Filling in scalar defaults and encoding gives back the same settings exactly if they already have every
      value the schema asks for and write whole numbers without a fraction. */
  lemma DefaultedRereadIff(sc: Schema, m: Fields)
    requires ScalarDefaults(sc) && AllScalar(m)
    ensures RereadFields(Defaulted(sc, m)) == m <==> Completes(sc, m, m) && PlainNumbers(m)
  {
    var d := Defaulted(sc, m);
    forall k | k in m
      ensures k in d && d[k] == m[k]
    {
      DefaultedAt(sc, m, k);
      if k in sc.properties {
        EntryScalarIff(sc.properties[k]);
      }
    }
    if RereadFields(d) == m {
      assert d.Keys == RereadFields(d).Keys == m.Keys;
      assert d == m;
    }
    UnchangedIff(sc, m);
    RereadScalarsIff(m);
  }

  // ---- Comparison ----

  datatype Comparison = Equal | Unequal | Incomparable

  /** Comparing two interface values: different dynamic types differ, two maps or two slices panic. */
  function GoCompare(x: Json, y: Json): Comparison {
    if (x.Obj? && y.Obj?) || (x.Arr? && y.Arr?) then Incomparable
    else if x == y then Equal else Unequal
  }

  function Read(m: Fields, k: string): Json {
    if k in m then m[k] else Null
  }

  datatype Verdict = Same | Different | Panics

  /** The answers that some iteration order of the comparison can give. */
  ghost predicate Possible(a: Raw, b: Raw, v: Verdict) {
    if ToMap(a).DecodeError? || ToMap(b).DecodeError? then v == Different
    else
      var x, y := Contents(a), Contents(b);
      match v
      case Same => |x| == |y| && forall k :: k in x ==> GoCompare(Read(y, k), x[k]).Equal?
      case Different => |x| != |y| || exists k :: k in x && GoCompare(Read(y, k), x[k]).Unequal?
      case Panics => |x| == |y| && exists k :: k in x && GoCompare(Read(y, k), x[k]).Incomparable?
  }

  method CompareSettings(a: Raw, b: Raw) returns (v: Verdict)
    ensures Possible(a, b, v)
  {
    if ToMap(a).DecodeError? {
      return Different;
    }
    if ToMap(b).DecodeError? {
      return Different;
    }
    var sa, sb := Contents(a), Contents(b);
    if |sa| != |sb| {
      return Different;
    }
    var todo := sa.Keys;
    while todo != {}
      invariant todo <= sa.Keys
      invariant forall k :: k in sa && k !in todo ==> GoCompare(Read(sb, k), sa[k]).Equal?
      decreases todo
    {
      var k :| k in todo;
      match GoCompare(Read(sb, k), sa[k]) {
        case Incomparable => return Panics;
        case Unequal => return Different;
        case Equal =>
      }
      todo := todo - {k};
    }
    return Same;
  }

  function RightAnswer(a: Raw, b: Raw): Verdict {
    if !ToMap(b).DecodeError? && Contents(a) == Contents(b) then Same else Different
  }

  /** Equal sizes and one-way agreement on every key make two maps equal. */
  lemma SameSizeAgreement(x: Fields, y: Fields)
    requires |x| == |y| && AllScalar(x)
    requires forall k :: k in x ==> Read(y, k) == x[k]
    ensures x == y
  {
    forall k | k in x
      ensures k in y
    {
      assert Scalar(x[k]);
    }
    assert x.Keys <= y.Keys;
    SubsetOfSameSize(x.Keys, y.Keys);
  }

  lemma SubsetOfSameSize<T>(a: set<T>, b: set<T>)
    requires a <= b && |a| == |b|
    ensures a == b
  {
    assert |b - a| == |b| - |a|;
    assert b == a + (b - a);
  }

  lemma ComparisonIsRight(a: Raw, b: Raw, v: Verdict)
    requires Admitted(a) && Possible(a, b, v)
    ensures v == RightAnswer(a, b)
  {
    var x, y := Contents(a), Contents(b);
    if v.Same? {
      SameSizeAgreement(x, y);
    } else if v.Panics? {
      assert false;  // no scalar is incomparable
    } else if !ToMap(b).DecodeError? && |x| == |y| {
      var k :| k in x && GoCompare(Read(y, k), x[k]).Unequal?;
      assert Read(y, k) != x[k];
    }
  }

  /** Settings that do not decode are never the same as anything. */
  lemma UndecodableIsDifferent(a: Raw, b: Raw, v: Verdict)
    requires Possible(a, b, v)
    requires a.Malformed? || b.Malformed? || (a.Document? && a.j.Arr?) || (b.Document? && b.j.Arr?)
    ensures v.Different?
  {
  }

  lemma {:induction false} LongerThanAll(s: set<string>) returns (n: nat)
    ensures forall t :: t in s ==> |t| < n
    decreases s
  {
    if s == {} {
      n := 0;
    } else {
      var t :| t in s;
      n := LongerThanAll(s - {t});
      n := if n <= |t| then |t| + 1 else n;
    }
  }

  /** For settings that validation refuses, some other settings get a wrong answer or a panic. */
  lemma RefusedSettingsFool(a: Raw) returns (b: Raw, v: Verdict)
    requires !ToMap(a).DecodeError? && !Admitted(a)
    ensures Possible(a, b, v) && v != RightAnswer(a, b)
  {
    var x := Contents(a);
    var k :| k in x && !Scalar(x[k]);
    if x[k].Null? {
      var n := LongerThanAll(x.Keys);
      var fresh_ := seq(n, _ => 'a');
      assert fresh_ !in x;
      if exists l :: l in x && (x[l].Obj? || x[l].Arr?) {
        var l :| l in x && (x[l].Obj? || x[l].Arr?);
        b, v := a, Panics;
        assert GoCompare(Read(x, l), x[l]).Incomparable?;
      } else {
        var y := (x - {k})[fresh_ := Null];
        assert |x - {k}| == |x| - 1 by { assert (x - {k}).Keys == x.Keys - {k}; }
        assert y.Keys == (x.Keys - {k}) + {fresh_};
        b, v := Document(Obj(y)), Same;
        assert |y| == |x|;
        assert k !in y && x != y;
      }
    } else {
      b, v := a, Panics;
      assert GoCompare(Read(x, k), x[k]).Incomparable?;
    }
  }

  /** Decodable settings `a` pass validation if and only if comparing them with anything, in any iteration
      order, gives the right answer: same exactly for the same map. */
  lemma ValidationIsExact(a: Raw)
    requires !ToMap(a).DecodeError?
    ensures Admitted(a) <==> forall b, v :: Possible(a, b, v) ==> v == RightAnswer(a, b)
  {
    if Admitted(a) {
      forall b, v | Possible(a, b, v)
        ensures v == RightAnswer(a, b)
      {
        ComparisonIsRight(a, b, v);
      }
    } else {
      var b, v := RefusedSettingsFool(a);
    }
  }

  /** On admitted settings the comparison is an equivalence, whatever iteration order each call takes. */
  lemma ComparisonIsAnEquivalence(
    a: Raw, b: Raw, c: Raw, ab: Verdict, ba: Verdict, bc: Verdict, ac: Verdict, aa: Verdict)
    requires Admitted(a) && Admitted(b) && Admitted(c)
    requires Possible(a, a, aa) && Possible(a, b, ab) && Possible(b, a, ba) && Possible(b, c, bc) && Possible(a, c, ac)
    ensures aa == Same && ab == ba && (ab == Same && bc == Same ==> ac == Same)
  {
    ComparisonIsRight(a, a, aa);
    ComparisonIsRight(a, b, ab);
    ComparisonIsRight(b, a, ba);
    ComparisonIsRight(b, c, bc);
    ComparisonIsRight(a, c, ac);
  }

  // ---- String sets ----

  method ToSet(s: seq<string>) returns (m: set<string>)
    ensures m == set x | x in s
  {
    m := {};
    for i := 0 to |s|
      invariant m == set x | x in s[..i]
    {
      m := m + {s[i]};
      assert s[..i + 1] == s[..i] + [s[i]];
    }
    assert s[..|s|] == s;
  }

  ghost predicate SameElements(a: seq<string>, b: seq<string>) {
    forall x :: x in a <==> x in b
  }

  /** Compares sizes and then one inclusion, which together say that the elements are the same. */
  method IsSameStringSet(a: seq<string>, b: Option<seq<string>>) returns (same: bool)
    ensures b.None? ==> (same <==> a == [])
    ensures b.Some? ==> (same <==> SameElements(a, b.value))
  {
    if b.None? {
      return |a| == 0;
    }
    var set1 := ToSet(a);
    var set2 := ToSet(b.value);
    if |set1| != |set2| {
      assert SameElements(a, b.value) ==> set1 == set2;
      return false;
    }
    var todo := set1;
    while todo != {}
      invariant todo <= set1
      invariant set1 - todo <= set2
      decreases todo
    {
      var ai :| ai in todo;
      if ai !in set2 {
        assert ai in a && ai !in b.value;
        return false;
      }
      todo := todo - {ai};
    }
    SubsetOfSameSize(set1, set2);
    forall x ensures x in a <==> x in b.value {
      assert x in a <==> x in set1;
      assert x in b.value <==> x in set2;
    }
    return true;
  }
}
