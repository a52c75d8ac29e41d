/** The defaulting loop as it works: nested objects live on the heap and are written in place, and the
    properties of a schema are visited in an arbitrary order. */
module SettingsEngine {
  import opened Wrappers
  import opened Settings

  /** A value inside a decoded object: a nested object, or anything else. */
  datatype Value = Leaf(j: Json) | Nested(o: Object)

  /** A decoded JSON object. Its nested objects are separate from each other and from itself. */
  class Object {
    var entries: map<string, Value>
    ghost var Repr: set<object>

    constructor ()
      ensures Valid() && fresh(Repr) && View() == map[] && entries == map[]
    {
      entries := map[];
      Repr := {this};
    }

    ghost predicate Valid()
      reads this, Repr
      decreases Repr
    {
      && this in Repr
      && (forall k :: k in entries && entries[k].Leaf? ==> !entries[k].j.Obj?)
      && (forall k :: k in entries && entries[k].Nested? ==>
            var o := entries[k].o; o in Repr && o.Repr <= Repr && this !in o.Repr && o.Valid())
      && (forall k, l :: k in entries && l in entries && k != l && entries[k].Nested? && entries[l].Nested? ==>
            entries[k].o.Repr !! entries[l].o.Repr)
    }

    /** The JSON object that this heap object stands for. */
    ghost function View(): (m: Fields)
      requires Valid()
      reads this, Repr
      decreases Repr
      ensures m.Keys == entries.Keys
    {
      map k | k in entries :: if entries[k].Leaf? then entries[k].j else Obj(entries[k].o.View())
    }
  }

  function Put(m: Fields, k: string, v: Option<Json>): Fields {
    if v.Some? then m[k := v.value] else m - {k}
  }

  /** Adds a separate object under a new key. */
  method Attach(input: Object, key: string, sub: Object)
    requires input.Valid() && sub.Valid() && key !in input.entries && input.Repr !! sub.Repr
    modifies input
    ensures input.Valid() && input.Repr == old(input.Repr) + sub.Repr
    ensures input.View() == old(input.View())[key := Obj(old(sub.View()))]
    ensures input.entries == old(input.entries)[key := Nested(sub)]
  {
    input.entries := input.entries[key := Nested(sub)];
    input.Repr := input.Repr + sub.Repr;
    forall k | k in old(input.entries) && input.entries[k].Nested?
      ensures var o := input.entries[k].o; o.Valid() && o.View() == old(o.View()) && o.Repr !! sub.Repr
    {
      assert input !in input.entries[k].o.Repr && input.entries[k].o.Repr <= old(input.Repr);
    }
    assert sub.View() == old(sub.View());
  }

  method AttachLeaf(input: Object, key: string, j: Json)
    requires input.Valid() && key !in input.entries && !j.Obj?
    modifies input`entries
    ensures input.Valid()
    ensures input.View() == old(input.View())[key := j]
    ensures input.entries == old(input.entries)[key := Leaf(j)]
  {
    input.entries := input.entries[key := Leaf(j)];
    forall k | k in old(input.entries) && input.entries[k].Nested?
      ensures var o := input.entries[k].o; o.Valid() && o.View() == old(o.View())
    {
      assert input !in input.entries[k].o.Repr;
    }
  }

  /** Builds the heap object for a JSON object. */
  method Decode(m: Fields) returns (o: Object)
    ensures o.Valid() && fresh(o.Repr) && o.View() == m
    decreases Obj(m), 0
  {
    o := new Object();
    var todo := m.Keys;
    while todo != {}
      invariant todo <= m.Keys
      invariant o.Valid() && fresh(o.Repr)
      invariant o.View() == map k | k in m && k !in todo :: m[k]
      decreases todo
    {
      var key :| key in todo;
      AttachValue(o, key, m[key]);
      todo := todo - {key};
    }
  }

  /** Stores a JSON value under a new key, decoding it if it is an object. */
  method AttachValue(input: Object, key: string, j: Json)
    requires input.Valid() && key !in input.entries
    modifies input
    ensures input.Valid() && fresh(input.Repr - old(input.Repr))
    ensures input.View() == old(input.View())[key := j]
    decreases j, 1
  {
    if j.Obj? {
      var sub := Decode(j.fields);
      Attach(input, key, sub);
    } else {
      AttachLeaf(input, key, j);
    }
  }

  /** Takes back into its parent a nested object that was changed in place. */
  ghost method Rejoin(input: Object, key: string, view: Fields)
    requires key in input.entries && input.entries[key].Nested? && input in input.Repr
    requires forall k :: k in input.entries && input.entries[k].Leaf? ==> !input.entries[k].j.Obj?
    requires forall k :: k in input.entries && input.entries[k].Nested? ==>
               var o := input.entries[k].o;
               o.Valid() && input !in o.Repr && o in input.Repr && (k != key ==> o.Repr <= input.Repr)
    requires forall k, l ::
               k in input.entries && l in input.entries && k != l ==>
                 input.entries[k].Nested? && input.entries[l].Nested? ==>
                   input.entries[k].o.Repr !! input.entries[l].o.Repr
    requires view.Keys == input.entries.Keys
    requires forall k :: k in input.entries ==>
               view[k] == if input.entries[k].Leaf? then input.entries[k].j else Obj(input.entries[k].o.View())
    modifies input`Repr
    ensures input.Valid() && input.Repr == old(input.Repr) + input.entries[key].o.Repr
    ensures input.View() == view
  {
    input.Repr := input.Repr + input.entries[key].o.Repr;
    forall k | k in input.entries && input.entries[k].Nested?
      ensures var o := input.entries[k].o; o.Valid() && o.View() == old(o.View())
    {
      assert input !in input.entries[k].o.Repr;
    }
  }

  /** Fills in a nested object in place; the objects under the other keys are out of its reach. */
  method Descend(key: string, val: Schema, input: Object) returns (filled: bool)
    requires input.Valid() && key in input.entries && input.entries[key].Nested?
    modifies input.entries[key].o.Repr
    ensures var sub := input.entries[key].o;
            && sub.Valid() && fresh(sub.Repr - old(sub.Repr)) && sub.View() == Defaulted(val, old(sub.View()))
            && (filled <==> sub.View() != old(sub.View()))
    ensures forall k :: k in input.entries && k != key && input.entries[k].Nested? ==>
              var o := input.entries[k].o;
              o.Repr == old(o.Repr) && o.Valid() && o.View() == old(o.View()) && o.Repr !! input.entries[key].o.Repr
    decreases val, 1
  {
    var submap := input.entries[key].o;
    filled := SetDefaults(val, submap);
    forall k | k in input.entries && k != key && input.entries[k].Nested?
      ensures var o := input.entries[k].o;
              o.Repr == old(o.Repr) && o.Valid() && o.View() == old(o.View()) && o.Repr !! submap.Repr
    {
      assert old(input.entries[k].o.Repr) !! old(submap.Repr);
    }
  }

  method FillExisting(key: string, val: Schema, input: Object, ghost view: Fields, ghost inner: Fields)
    returns (filled: bool)
    requires input.Valid() && key in input.entries && input.entries[key].Nested?
    requires view.Keys == input.entries.Keys && inner == input.entries[key].o.View()
    requires forall k :: k in input.entries ==>
               view[k] == if input.entries[k].Leaf? then input.entries[k].j else Obj(input.entries[k].o.View())
    modifies input.Repr
    ensures input.Valid() && fresh(input.Repr - old(input.Repr))
    ensures input.View() == view[key := Obj(Defaulted(val, inner))]
    ensures filled <==> Defaulted(val, inner) != inner
    decreases val, 2
  {
    filled := Descend(key, val, input);
    Rejoin(input, key, view[key := Obj(Defaulted(val, inner))]);
  }

  method DefaultsOnly(val: Schema) returns (submap: Object, filled: bool)
    ensures submap.Valid() && fresh(submap.Repr) && submap.View() == Defaulted(val, map[])
    ensures filled <==> Defaulted(val, map[]) != map[]
    decreases val, 1
  {
    submap := new Object();
    filled := SetDefaults(val, submap);
  }

  /** Builds a nested object for a missing key, and attaches it only if it holds something. */
  method FillMissing(key: string, val: Schema, input: Object, ghost view: Fields) returns (filled: bool)
    requires input.Valid() && key !in input.entries && view == input.View()
    modifies input
    ensures input.Valid() && fresh(input.Repr - old(input.Repr))
    ensures input.View() == if filled then view[key := Obj(Defaulted(val, map[]))] else view
    ensures filled <==> Defaulted(val, map[]) != map[]
    decreases val, 2
  {
    var submap;
    submap, filled := DefaultsOnly(val);
    if filled {
      Attach(input, key, submap);
    }
  }

  // What each branch of the loop body writes is the entry that `Defaulted` gives the key.

  function Updated(view: Fields, key: string, val: Schema): Fields {
    Put(view, key, Entry(val, At(view, key)))
  }

  lemma LeafEntry(view: Fields, key: string, val: Schema)
    requires !val.Nested()
    ensures Updated(view, key, val) == if key !in view && val.Usable() then view[key := val.default] else view
  {
    PutBack(view, key);
  }

  lemma MissingEntry(view: Fields, key: string, val: Schema)
    requires val.Nested() && key !in view
    ensures var sub := Defaulted(val, map[]);
            Updated(view, key, val) == if sub != map[] then view[key := Obj(sub)] else view
  {
    PutBack(view, key);
  }

  lemma ObjectEntry(view: Fields, key: string, val: Schema)
    requires val.Nested() && key in view && view[key].Obj?
    ensures var sub := Defaulted(val, view[key].fields);
            && Updated(view, key, val) == view[key := Obj(sub)]
            && (view[key := Obj(sub)] != view <==> sub != view[key].fields)
  {
    PutBack(view, key);
    var sub := Defaulted(val, view[key].fields);
    assert view[key := Obj(sub)][key] == Obj(sub);
  }

  lemma BlockedEntry(view: Fields, key: string, val: Schema)
    requires val.Nested() && key in view && !view[key].Obj?
    ensures Updated(view, key, val) == view
  {
    PutBack(view, key);
  }

  /** Putting back what is there changes nothing. */
  lemma PutBack(view: Fields, key: string)
    ensures Put(view, key, At(view, key)) == view
  {
    if key in view {
      assert view[key := view[key]] == view;
    } else {
      assert view - {key} == view;
    }
  }

  /** The loop body for one property. */
  method FillKey(key: string, val: Schema, input: Object, ghost view: Fields) returns (filled: bool)
    requires input.Valid() && view == input.View()
    modifies input.Repr
    ensures input.Valid() && fresh(input.Repr - old(input.Repr))
    ensures input.View() == Updated(view, key, val)
    ensures filled <==> input.View() != view
    decreases val, 3
  {
    filled := false;
    if val.Nested() {
      if key !in input.entries {
        MissingEntry(view, key, val);
        filled := FillMissing(key, val, input, view);
      } else if input.entries[key].Nested? {
        ObjectEntry(view, key, val);
        filled := FillExisting(key, val, input, view, view[key].fields);
      } else {
        BlockedEntry(view, key, val);
      }
    } else {
      LeafEntry(view, key, val);
      if key !in input.entries && val.Usable() {
        AttachValue(input, key, val.default);
        filled := true;
      }
    }
  }

  /** Whatever the iteration order at each level, the final object is `Defaulted` of the initial one, and
      the flag says whether it differs. */
  method SetDefaults(sc: Schema, input: Object) returns (hasSetDefaults: bool)
    requires input.Valid()
    modifies input.Repr
    ensures input.Valid() && fresh(input.Repr - old(input.Repr))
    ensures input.View() == Defaulted(sc, old(input.View()))
    ensures hasSetDefaults <==> input.View() != old(input.View())
    decreases sc, 0
  {
    hasSetDefaults := false;
    var todo := sc.properties.Keys;
    ghost var before := input.View();
    while todo != {}
      invariant todo <= sc.properties.Keys
      invariant input.Valid() && fresh(input.Repr - old(input.Repr))
      invariant forall k :: At(input.View(), k) == if k in todo then At(before, k) else EntryAt(sc, before, k)
      invariant hasSetDefaults <==> exists k :: At(input.View(), k) != At(before, k)
      decreases todo
    {
      var key :| key in todo;
      ghost var view := input.View();
      var filled := FillKey(key, sc.properties[key], input, view);
      forall k ensures At(input.View(), k) == if k == key then EntryAt(sc, before, k) else At(view, k) {
      }
      if filled {
        hasSetDefaults := true;
        if At(input.View(), key) == At(before, key) {
          SameAt(input.View(), view);
        }
      }
      todo := todo - {key};
    }
    forall k ensures At(input.View(), k) == At(Defaulted(sc, before), k) {
      DefaultedAt(sc, before, k);
    }
    SameAt(input.View(), Defaulted(sc, before));
    if !hasSetDefaults {
      SameAt(input.View(), before);
    }
  }

  /** Reads a heap object back into JSON. */
  method Encode(o: Object) returns (m: Fields)
    requires o.Valid()
    ensures m == o.View()
    decreases o.Repr, 1
  {
    m := map[];
    ghost var view := o.View();
    var todo := o.entries.Keys;
    while todo != {}
      invariant todo <= o.entries.Keys == view.Keys
      invariant m == map k | k in view && k !in todo :: view[k]
      decreases todo
    {
      var key :| key in todo;
      var j := EncodeAt(o, key);
      m := m[key := j];
      todo := todo - {key};
    }
    assert m == view;
  }

  method EncodeAt(o: Object, key: string) returns (j: Json)
    requires o.Valid() && key in o.entries
    ensures j == o.View()[key]
    decreases o.Repr, 0
  {
    match o.entries[key]
    case Leaf(leaf) => j := leaf;
    case Nested(sub) =>
      var inner := Encode(sub);
      j := Obj(inner);
  }
}
