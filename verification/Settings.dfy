/** JSON settings, setting schemas, and what filling in schema defaults means. */
module Settings {
  import opened Wrappers

  /** A decoded JSON value. Whole numbers decode to 64-bit integers, others to floats. */
  datatype Json =
    | Null
    | Bool(b: bool)
    | Int(i: int)
    | Float(x: real)
    | Str(s: string)
    | Arr(items: seq<Json>)
    | Obj(fields: map<string, Json>)

  type Fields = map<string, Json>

  /** `default` is `Null` where the schema gives none. */
  datatype Schema = Schema(default: Json, properties: map<string, Schema>)
  {
    predicate Nested() {
      |properties| > 0
    }

    predicate Usable() {
      default != Null && default != Str("null")
    }
  }

  // ---- The pure meaning of filling in defaults ----

  /** What becomes of one key: `current` is its value in the input, if it has one. */
  function Entry(sc: Schema, current: Option<Json>): (r: Option<Json>)
    decreases sc, 2
  {
    if !sc.Nested() then
      if current.None? && sc.Usable() then Some(sc.default) else current
    else match current
      case None =>
        var sub := Defaulted(sc, map[]);
        if sub == map[] then None else Some(Obj(sub))
      case Some(Obj(fields)) => Some(Obj(Defaulted(sc, fields)))
      case Some(_) => current
  }

  function At(m: Fields, k: string): Option<Json> {
    if k in m then Some(m[k]) else None
  }

  function EntryAt(sc: Schema, m: Fields, k: string): (r: Option<Json>)
    decreases sc, 0
  {
    if k in sc.properties then Entry(sc.properties[k], At(m, k)) else At(m, k)
  }

  function Defaulted(sc: Schema, m: Fields): (r: Fields)
    decreases sc, 1
  {
    map k | k in m.Keys + sc.properties.Keys && EntryAt(sc, m, k).Some? :: EntryAt(sc, m, k).value
  }

  lemma DefaultedAt(sc: Schema, m: Fields, k: string)
    ensures At(Defaulted(sc, m), k) == EntryAt(sc, m, k)
  {
  }

  /** The schema asks for at least one value, at some depth. */
  ghost predicate HasDefaults(sc: Schema) {
    exists k :: k in sc.properties && Asks(sc.properties[k])
  }

  ghost predicate Asks(sc: Schema) {
    if sc.Nested() then exists k :: k in sc.properties && Asks(sc.properties[k]) else sc.Usable()
  }

  /** An object is added for a missing nested key only to hold a default. */
  lemma {:induction false} EmptyObjectGrowsIff(sc: Schema)
    ensures Defaulted(sc, map[]) != map[] <==> HasDefaults(sc)
  {
    forall k | k in sc.properties
      ensures EntryAt(sc, map[], k).Some? <==> Asks(sc.properties[k])
    {
      EmptyObjectGrowsIff(sc.properties[k]);
    }
    if HasDefaults(sc) {
      var k :| k in sc.properties && Asks(sc.properties[k]);
      assert k in Defaulted(sc, map[]);
    } else if Defaulted(sc, map[]) != map[] {
      var k :| k in Defaulted(sc, map[]);
      assert EntryAt(sc, map[], k).Some?;
    }
  }

  // ---- The extension order ----

  /** `y` keeps everything in `x`, and may have more keys inside objects. */
  ghost predicate Within(x: Json, y: Json) {
    x == y ||
    (x.Obj? && y.Obj? && forall k :: k in x.fields ==> k in y.fields && Within(x.fields[k], y.fields[k]))
  }

  ghost predicate Below(a: Fields, b: Fields) {
    forall k :: k in a ==> k in b && Within(a[k], b[k])
  }

  lemma WithinObjects(a: Fields, b: Fields)
    ensures Within(Obj(a), Obj(b)) <==> Below(a, b)
  {
    if a == b {
      assert forall k :: k in a ==> Within(a[k], b[k]);
    } else {
      assert Obj(a).fields == a && Obj(b).fields == b;
    }
  }

  lemma {:induction false} WithinAntisymmetric(x: Json, y: Json)
    requires Within(x, y) && Within(y, x)
    ensures x == y
  {
    if x.Obj? && y.Obj? {
      forall k | k in x.fields
        ensures x.fields[k] == y.fields[k]
      {
        WithinAntisymmetric(x.fields[k], y.fields[k]);
      }
      assert x.fields == y.fields;
    }
  }

  lemma BelowAntisymmetric(a: Fields, b: Fields)
    requires Below(a, b) && Below(b, a)
    ensures a == b
  {
    forall k | k in a
      ensures a[k] == b[k]
    {
      WithinAntisymmetric(a[k], b[k]);
    }
  }

  // ---- Least extension ----

  /** `b` extends `a` and has every value that the schema asks for where `a` left room for it. */
  ghost predicate Completes(sc: Schema, a: Fields, b: Fields)
    decreases sc, 1
  {
    Below(a, b) && forall k :: k in sc.properties ==> CompletesKey(sc.properties[k], At(a, k), At(b, k))
  }

  ghost predicate CompletesKey(sc: Schema, before: Option<Json>, after: Option<Json>)
    decreases sc, 2
  {
    if !sc.Nested() then
      before.None? && sc.Usable() ==> after == Some(sc.default)
    else match before
      case None => HasDefaults(sc) ==> after.Some? && after.value.Obj? && Completes(sc, map[], after.value.fields)
      case Some(Obj(fields)) => after.Some? && after.value.Obj? && Completes(sc, fields, after.value.fields)
      case Some(_) => true  // a value that is not an object blocks descent
  }

  lemma {:induction false} DefaultedCompletes(sc: Schema, m: Fields)
    ensures Completes(sc, m, Defaulted(sc, m))
    decreases sc
  {
    var d := Defaulted(sc, m);
    forall k | k in m
      ensures k in d && Within(m[k], d[k])
    {
      DefaultedAt(sc, m, k);
      if k in sc.properties && sc.properties[k].Nested() && m[k].Obj? {
        DefaultedCompletes(sc.properties[k], m[k].fields);
        WithinObjects(m[k].fields, d[k].fields);
      }
    }
    forall k | k in sc.properties
      ensures CompletesKey(sc.properties[k], At(m, k), At(d, k))
    {
      DefaultedAt(sc, m, k);
      var child := sc.properties[k];
      if child.Nested() {
        EmptyObjectGrowsIff(child);
        match At(m, k) {
          case None => DefaultedCompletes(child, map[]);
          case Some(Obj(fields)) => DefaultedCompletes(child, fields);
          case Some(_) =>
        }
      }
    }
  }

  lemma {:induction false} DefaultedIsBelow(sc: Schema, m: Fields, other: Fields)
    requires Completes(sc, m, other)
    ensures Below(Defaulted(sc, m), other)
    decreases sc, 0
  {
    var d := Defaulted(sc, m);
    forall k | k in d
      ensures k in other && Within(d[k], other[k])
    {
      DefaultedAt(sc, m, k);
      if k in sc.properties {
        EntryIsWithin(sc.properties[k], At(m, k), At(other, k));
      }
    }
  }

  lemma {:induction false} EntryIsWithin(sc: Schema, before: Option<Json>, after: Option<Json>)
    requires CompletesKey(sc, before, after) && Entry(sc, before).Some?
    requires before.Some? ==> after.Some? && Within(before.value, after.value)
    ensures after.Some? && Within(Entry(sc, before).value, after.value)
    decreases sc, 1
  {
    if sc.Nested() {
      match before
      case None =>
        EmptyObjectGrowsIff(sc);
        DefaultedIsBelow(sc, map[], after.value.fields);
        WithinObjects(Defaulted(sc, map[]), after.value.fields);
      case Some(Obj(fields)) =>
        DefaultedIsBelow(sc, fields, after.value.fields);
        WithinObjects(Defaulted(sc, fields), after.value.fields);
      case Some(_) =>
    }
  }

  /** Filling in defaults is the least extension that has every value the schema asks for: it is one, it is
      contained in every other, and nothing else is both. */
  lemma LeastExtension(sc: Schema, m: Fields, other: Fields)
    ensures Completes(sc, m, Defaulted(sc, m))
    ensures Completes(sc, m, other) ==> Below(Defaulted(sc, m), other)
    ensures (Completes(sc, m, other) && Below(other, Defaulted(sc, m))) <==> other == Defaulted(sc, m)
  {
    DefaultedCompletes(sc, m);
    if Completes(sc, m, other) {
      DefaultedIsBelow(sc, m, other);
      if Below(other, Defaulted(sc, m)) {
        BelowAntisymmetric(Defaulted(sc, m), other);
      }
    }
    assert Below(Defaulted(sc, m), Defaulted(sc, m));
  }

  /** Nothing changes exactly when the input already has everything the schema asks for. */
  lemma UnchangedIff(sc: Schema, m: Fields)
    ensures Defaulted(sc, m) == m <==> Completes(sc, m, m)
  {
    LeastExtension(sc, m, m);
  }

  /** A second pass changes nothing. */
  lemma {:induction false} Idempotent(sc: Schema, m: Fields)
    ensures Defaulted(sc, Defaulted(sc, m)) == Defaulted(sc, m)
    decreases sc
  {
    var d := Defaulted(sc, m);
    forall k
      ensures At(Defaulted(sc, d), k) == At(d, k)
    {
      DefaultedAt(sc, m, k);
      DefaultedAt(sc, d, k);
      if k in sc.properties && sc.properties[k].Nested() {
        match At(m, k) {
          case None => Idempotent(sc.properties[k], map[]);
          case Some(Obj(fields)) => Idempotent(sc.properties[k], fields);
          case Some(_) =>
        }
      }
    }
    SameAt(Defaulted(sc, d), d);
  }

  lemma SameAt(a: Fields, b: Fields)
    requires forall k :: At(a, k) == At(b, k)
    ensures a == b
  {
    assert forall k :: k in a <==> k in b by {
      forall k ensures k in a <==> k in b { assert At(a, k) == At(b, k); }
    }
    forall k | k in a ensures a[k] == b[k] { assert At(a, k) == At(b, k); }
  }

  // ---- Paths ----

  function Lookup(m: Fields, path: seq<string>): Option<Json>
    decreases |path|
  {
    if path == [] then Some(Obj(m))
    else if path[0] !in m then None
    else if |path| == 1 then Some(m[path[0]])
    else if m[path[0]].Obj? then Lookup(m[path[0]].fields, path[1..])
    else None
  }

  lemma {:induction false} BelowKeepsPaths(a: Fields, b: Fields, path: seq<string>)
    requires Below(a, b) && Lookup(a, path).Some?
    ensures Lookup(b, path).Some? && Within(Lookup(a, path).value, Lookup(b, path).value)
    decreases |path|
  {
    if path == [] {
      WithinObjects(a, b);
    } else if |path| > 1 {
      var k := path[0];
      WithinObjects(a[k].fields, b[k].fields);
      BelowKeepsPaths(a[k].fields, b[k].fields, path[1..]);
    }
  }

  /** Every user-set path survives; a value that is not an object keeps its exact value. */
  lemma UserValuesSurvive(sc: Schema, m: Fields, path: seq<string>)
    requires Lookup(m, path).Some?
    ensures Lookup(Defaulted(sc, m), path).Some?
    ensures if Lookup(m, path).value.Obj? then Lookup(Defaulted(sc, m), path).value.Obj?
            else Lookup(Defaulted(sc, m), path) == Lookup(m, path)
  {
    DefaultedCompletes(sc, m);
    BelowKeepsPaths(m, Defaulted(sc, m), path);
  }

  /** The schema that a path of property names leads to. */
  function SchemaAt(sc: Schema, path: seq<string>): Option<Schema>
    decreases |path|
  {
    if path == [] then Some(sc)
    else if path[0] !in sc.properties then None
    else SchemaAt(sc.properties[path[0]], path[1..])
  }

  /** Nothing is set at the path, and nothing but objects on the way to it. */
  predicate Free(m: Fields, path: seq<string>)
    decreases |path|
  {
    path != [] &&
    (path[0] !in m || (|path| > 1 && m[path[0]].Obj? && Free(m[path[0]].fields, path[1..])))
  }

  /** At every free path that leads to a property without properties of its own, the default appears, except for none
      and for the text "null", which are never filled in. */
  lemma {:induction false} DefaultsAppear(sc: Schema, m: Fields, path: seq<string>)
    requires Free(m, path) && SchemaAt(sc, path).Some? && SchemaAt(sc, path).value.properties == map[]
    ensures var d := SchemaAt(sc, path).value.default;
            Lookup(Defaulted(sc, m), path) == if d == Null || d == Str("null") then None else Some(d)
    decreases |path|
  {
    var k := path[0];
    var child := sc.properties[k];
    DefaultedAt(sc, m, k);
    if |path| == 1 {
      assert SchemaAt(sc, path) == Some(child);
    } else {
      var rest := path[1..];
      assert SchemaAt(sc, path) == SchemaAt(child, rest);
      assert rest[0] in child.properties;
      var inner := if k in m then m[k].fields else map[];
      DefaultsAppear(child, inner, rest);
      if k !in m && Defaulted(child, map[]) == map[] {
        assert Lookup(map[], rest) == None;
      }
    }
  }
}
