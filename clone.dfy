/**
 * deepClone of src/utils.js over JavaScript values seen as trees: the
 * primitives, Date, arrays and plain objects whose own enumerable
 * properties are listed in enumeration order.
 */
module Clone {
  import opened Wrappers

  datatype Value =
    | Undefined
    | Null
    | Bool(b: bool)
    | Num(n: real)
    | Str(s: string)
    /** A Date, by its `getTime()` instant in milliseconds. */
    | Date(time: int)
    | Array(elements: seq<Value>)
    /** A plain object: its own properties as (key, value) pairs, in for…in order. */
    | Object(properties: seq<(string, Value)>)

  /** The error `obj.hasOwnProperty(key)` throws when that property is not a function. */
  datatype TypeError = TypeError(message: string)

  /** Primitives and null: what deepClone hands back as it is. */
  predicate IsPrimitive(v: Value)
  {
    v.Undefined? || v.Null? || v.Bool? || v.Num? || v.Str?
  }

  /** The keys of an object's properties, in order. */
  function Keys(properties: seq<(string, Value)>): (ks: seq<string>)
    ensures |ks| == |properties|
    ensures forall k :: 0 <= k < |properties| ==> ks[k] == properties[k].0
  {
    seq(|properties|, k requires 0 <= k < |properties| => properties[k].0)
  }

  /** Some object in v, at any depth, has an own property named key. */
  predicate HasKeyAnywhere(v: Value, key: string)
    decreases v
  {
    match v
    case Array(elements) => ElementsHaveKey(elements, key)
    case Object(properties) => PropertiesHaveKey(properties, key)
    case _ => false
  }

  /** Some element has an own property named key at some depth. */
  predicate ElementsHaveKey(elements: seq<Value>, key: string)
    decreases elements
  {
    elements != []
    && (ElementsHaveKey(elements[..|elements| - 1], key) || HasKeyAnywhere(elements[|elements| - 1], key))
  }

  /** Some property is named key, or has a property named key in its value at some depth. */
  predicate PropertiesHaveKey(properties: seq<(string, Value)>, key: string)
    decreases properties
  {
    properties != []
    && (PropertiesHaveKey(properties[..|properties| - 1], key) || PropertyHasKey(properties[|properties| - 1], key))
  }

  /** The property is named key, or its value has a property named key at some depth. */
  predicate PropertyHasKey(property: (string, Value), key: string)
    decreases property
  {
    property.0 == key || HasKeyAnywhere(property.1, key)
  }

  /** ElementsHaveKey holds exactly when one of the elements has the key. */
  lemma {:induction false} ElementsHaveKeyAt(elements: seq<Value>, key: string)
    ensures ElementsHaveKey(elements, key) <==> exists k :: 0 <= k < |elements| && HasKeyAnywhere(elements[k], key)
    decreases |elements|
  {
    if elements != [] {
      var n := |elements| - 1;
      ElementsHaveKeyAt(elements[..n], key);
      if ElementsHaveKey(elements[..n], key) {
        var k :| 0 <= k < n && HasKeyAnywhere(elements[..n][k], key);
        assert elements[k] == elements[..n][k];
      } else if !HasKeyAnywhere(elements[n], key) {
        forall k | 0 <= k < |elements| ensures !HasKeyAnywhere(elements[k], key) {
          if k < n {
            assert elements[..n][k] == elements[k];
          }
        }
      }
    }
  }

  /** PropertiesHaveKey holds exactly when one of the properties has the key. */
  lemma {:induction false} PropertiesHaveKeyAt(properties: seq<(string, Value)>, key: string)
    ensures PropertiesHaveKey(properties, key) <==> exists k :: 0 <= k < |properties| && PropertyHasKey(properties[k], key)
    decreases |properties|
  {
    if properties != [] {
      var n := |properties| - 1;
      PropertiesHaveKeyAt(properties[..n], key);
      if PropertiesHaveKey(properties[..n], key) {
        var k :| 0 <= k < n && PropertyHasKey(properties[..n][k], key);
        assert properties[k] == properties[..n][k];
      } else if !PropertyHasKey(properties[n], key) {
        forall k | 0 <= k < |properties| ensures !PropertyHasKey(properties[k], key) {
          if k < n {
            assert properties[..n][k] == properties[k];
          }
        }
      }
    }
  }

  /**
   * The own properties that `clonedObj[key] = value` creates, one assignment
   * after the other: every property except `__proto__`, whose assignment goes
   * to the setter inherited from `Object.prototype` and creates no own property.
   */
  function Assigned(properties: seq<(string, Value)>): seq<(string, Value)>
  {
    if properties == [] then []
    else
      var last := properties[|properties| - 1];
      Assigned(properties[..|properties| - 1]) + (if last.0 == "__proto__" then [] else [last])
  }

  lemma SplitLast<T>(s: seq<T>)
    requires s != []
    ensures s == s[..|s| - 1] + [s[|s| - 1]]
  {
  }

  /** The assignments keep exactly the properties not named `__proto__`. */
  lemma {:induction false} AssignedMembers(properties: seq<(string, Value)>)
    ensures forall p :: p in Assigned(properties) <==> p in properties && p.0 != "__proto__"
    decreases |properties|
  {
    if properties != [] {
      var n := |properties| - 1;
      AssignedMembers(properties[..n]);
      SplitLast(properties);
    }
  }

  /** Without a `__proto__` key, the assignments create every property as it is. */
  lemma {:induction false} AssignedWithoutProtoKey(properties: seq<(string, Value)>)
    requires "__proto__" !in Keys(properties)
    ensures Assigned(properties) == properties
    decreases |properties|
  {
    if properties != [] {
      var n := |properties| - 1;
      assert Keys(properties)[n] == properties[n].0;
      assert "__proto__" !in Keys(properties[..n]) by {
        forall k | 0 <= k < n ensures Keys(properties[..n])[k] != "__proto__" {
          assert Keys(properties)[k] == Keys(properties[..n])[k];
        }
      }
      AssignedWithoutProtoKey(properties[..n]);
      SplitLast(properties);
    }
  }

  /** What deepClone returns when it does not throw. */
  function Cloned(v: Value): Value
    decreases v
  {
    match v
    case Array(elements) => Array(ClonedElements(elements))
    case Object(properties) => Object(Assigned(ClonedProperties(properties)))
    case _ => v
  }

  /** `map(item => deepClone(item))`: the clone of every element, in place. */
  function ClonedElements(elements: seq<Value>): (r: seq<Value>)
    ensures |r| == |elements|
    ensures forall k :: 0 <= k < |elements| ==> r[k] == Cloned(elements[k])
    decreases elements
  {
    if elements == [] then []
    else ClonedElements(elements[..|elements| - 1]) + [Cloned(elements[|elements| - 1])]
  }

  /** Every property with its value cloned, in order, before the assignments. */
  function ClonedProperties(properties: seq<(string, Value)>): (r: seq<(string, Value)>)
    ensures |r| == |properties|
    ensures forall k :: 0 <= k < |properties| ==> r[k] == ClonedProperty(properties[k])
    decreases properties
  {
    if properties == [] then []
    else ClonedProperties(properties[..|properties| - 1]) + [ClonedProperty(properties[|properties| - 1])]
  }

  function ClonedProperty(property: (string, Value)): (r: (string, Value))
    ensures r.0 == property.0
    decreases property
  {
    (property.0, Cloned(property.1))
  }

  /**
   * deepClone: a primitive or null comes back as it is, a Date as a new Date
   * of the same instant, an array and a plain object as below.
   */
  method DeepClone(v: Value) returns (r: Result<Value, TypeError>)
    ensures r.Failure? <==> HasKeyAnywhere(v, "hasOwnProperty")
    ensures r.Success? ==> r.value == Cloned(v)
    decreases v, 1
  {
    match v {
      case Date(time) =>
        r := Success(Date(time));
      case Array(_) =>
        r := CloneArray(v);
      case Object(_) =>
        r := CloneObject(v);
      case _ =>
        r := Success(v);
    }
  }

  /** `obj.map(item => deepClone(item))`: the clones of the elements, in order. */
  method CloneArray(v: Value) returns (r: Result<Value, TypeError>)
    requires v.Array?
    ensures r.Failure? <==> HasKeyAnywhere(v, "hasOwnProperty")
    ensures r.Success? ==> r.value == Cloned(v)
    decreases v, 0
  {
    var elements := v.elements;
    var cloned: seq<Value> := [];
    for i := 0 to |elements|
      invariant cloned == ClonedElements(elements[..i])
      invariant !ElementsHaveKey(elements[..i], "hasOwnProperty")
    {
      assert elements[i] in elements;
      var item := DeepClone(elements[i]);
      assert elements[..i + 1][..i] == elements[..i];
      if item.Failure? {
        ElementsHaveKeyAt(elements, "hasOwnProperty");
        assert HasKeyAnywhere(elements[i], "hasOwnProperty");
        return Failure(item.error);
      }
      cloned := cloned + [item.value];
    }
    assert elements[..|elements|] == elements;
    r := Success(Array(cloned));
  }

  /**
   * A plain object, filled key by key (`for…in`) with the clones of its values.
   * `obj.hasOwnProperty` is looked up on the object itself, so an own property
   * of that name (never a function here) makes the call throw; the message is
   * the one V8 gives.
   */
  method CloneObject(v: Value) returns (r: Result<Value, TypeError>)
    requires v.Object?
    ensures r.Failure? <==> HasKeyAnywhere(v, "hasOwnProperty")
    ensures r.Success? ==> r.value == Cloned(v)
    decreases v, 0
  {
    var properties := v.properties;
    var cloned: seq<(string, Value)> := [];
    for i := 0 to |properties|
      invariant cloned == Assigned(ClonedProperties(properties[..i]))
      invariant !PropertiesHaveKey(properties[..i], "hasOwnProperty")
    {
      if "hasOwnProperty" in Keys(properties) {
        var j :| 0 <= j < |properties| && Keys(properties)[j] == "hasOwnProperty";
        PropertyHasKeyAt(properties, j, "hasOwnProperty");
        return Failure(TypeError("obj.hasOwnProperty is not a function"));
      }
      var (key, value) := properties[i];
      assert properties[i] in properties;
      var item := DeepClone(value);
      if item.Failure? {
        PropertyHasKeyAt(properties, i, "hasOwnProperty");
        return Failure(item.error);
      }
      PropertiesPrefixStep(properties, i, "hasOwnProperty");
      assert Keys(properties)[i] == key;
      if key != "__proto__" {
        cloned := cloned + [(key, item.value)];
      }
    }
    assert properties[..|properties|] == properties;
    r := Success(Object(cloned));
  }

  /** The property at index j has the key, so the properties have it. */
  lemma PropertyHasKeyAt(properties: seq<(string, Value)>, j: nat, key: string)
    requires j < |properties| && PropertyHasKey(properties[j], key)
    ensures PropertiesHaveKey(properties, key)
  {
    PropertiesHaveKeyAt(properties, key);
  }

  /** One more property: the assignments and the key search over a longer prefix extend those over the shorter one. */
  lemma PropertiesPrefixStep(properties: seq<(string, Value)>, i: nat, key: string)
    requires i < |properties|
    ensures Assigned(ClonedProperties(properties[..i + 1]))
      == Assigned(ClonedProperties(properties[..i]))
        + (if properties[i].0 == "__proto__" then [] else [ClonedProperty(properties[i])])
    ensures PropertiesHaveKey(properties[..i + 1], key)
      <==> PropertiesHaveKey(properties[..i], key) || PropertyHasKey(properties[i], key)
  {
    var pairs := ClonedProperties(properties[..i + 1]);
    assert properties[..i + 1][..i] == properties[..i];
    assert pairs[..i] == ClonedProperties(properties[..i]);
  }

  /** A clone has the input's shape: primitives and Dates as they are, arrays of the same length, objects with the same keys apart from `__proto__`. */
  lemma ClonedShape(v: Value)
    ensures IsPrimitive(v) || v.Date? ==> Cloned(v) == v
    ensures v.Array? ==> Cloned(v).Array? && |Cloned(v).elements| == |v.elements|
    ensures v.Object? ==> Cloned(v).Object? && Keys(Cloned(v).properties) == Keys(Assigned(v.properties))
  {
    if v.Object? {
      AssignedClonedProperties(v.properties);
    }
  }

  /** Cloning the values and making the assignments can be done in either order. */
  lemma {:induction false} AssignedClonedProperties(properties: seq<(string, Value)>)
    ensures Assigned(ClonedProperties(properties)) == ClonedProperties(Assigned(properties))
    decreases |properties|
  {
    if properties != [] {
      var n := |properties| - 1;
      var pairs := ClonedProperties(properties);
      AssignedClonedProperties(properties[..n]);
      assert pairs[..n] == ClonedProperties(properties[..n]);
      if properties[n].0 == "__proto__" {
        assert Assigned(properties) == Assigned(properties[..n]) + [];
      } else {
        assert Assigned(properties) == Assigned(properties[..n]) + [properties[n]];
        ClonedPropertiesAppend(Assigned(properties[..n]), properties[n]);
      }
    }
  }

  lemma ClonedPropertiesAppend(properties: seq<(string, Value)>, property: (string, Value))
    ensures ClonedProperties(properties + [property]) == ClonedProperties(properties) + [ClonedProperty(property)]
  {
    assert (properties + [property])[..|properties|] == properties;
  }

  /** Without `__proto__` keys anywhere, the clone is equal to the input. */
  lemma {:induction false} ClonedIdentity(v: Value)
    requires !HasKeyAnywhere(v, "__proto__")
    ensures Cloned(v) == v
    decreases v
  {
    match v {
      case Array(elements) =>
        ElementsHaveKeyAt(elements, "__proto__");
        forall k | 0 <= k < |elements| ensures Cloned(elements[k]) == elements[k] {
          assert elements[k] in elements;
          ClonedIdentity(elements[k]);
        }
      case Object(properties) =>
        PropertiesHaveKeyAt(properties, "__proto__");
        var pairs := ClonedProperties(properties);
        forall k | 0 <= k < |properties| ensures pairs[k] == properties[k] {
          assert !PropertyHasKey(properties[k], "__proto__");
          assert properties[k] in properties;
          ClonedIdentity(properties[k].1);
        }
        assert pairs == properties;
        forall k | 0 <= k < |properties| ensures Keys(properties)[k] != "__proto__" {
          assert !PropertyHasKey(properties[k], "__proto__");
        }
        AssignedWithoutProtoKey(properties);
      case _ =>
    }
  }

  /** A clone holds no `__proto__` key at any depth. */
  lemma {:induction false} ClonedHasNoProtoKey(v: Value)
    ensures !HasKeyAnywhere(Cloned(v), "__proto__")
    decreases v
  {
    match v {
      case Array(elements) =>
        var cloned := ClonedElements(elements);
        forall k | 0 <= k < |elements| ensures !HasKeyAnywhere(cloned[k], "__proto__") {
          assert elements[k] in elements;
          ClonedHasNoProtoKey(elements[k]);
        }
        ElementsHaveKeyAt(cloned, "__proto__");
      case Object(properties) =>
        var pairs := ClonedProperties(properties);
        var kept := Assigned(pairs);
        AssignedMembers(pairs);
        forall k | 0 <= k < |kept| ensures !PropertyHasKey(kept[k], "__proto__") {
          assert kept[k] in pairs;
          var j :| 0 <= j < |pairs| && pairs[j] == kept[k];
          assert properties[j] in properties;
          ClonedHasNoProtoKey(properties[j].1);
        }
        PropertiesHaveKeyAt(kept, "__proto__");
      case _ =>
    }
  }

  /** Cloning a clone changes nothing, as values: prototypes the `__proto__` setter installs are outside the model. */
  lemma ClonedIdempotent(v: Value)
    ensures Cloned(Cloned(v)) == Cloned(v)
  {
    ClonedHasNoProtoKey(v);
    ClonedIdentity(Cloned(v));
  }

  /** The primitives of the deepClone tests come back as they are. */
  lemma ClonedPrimitives()
    ensures Cloned(Num(5.0)) == Num(5.0) && Cloned(Str("hello")) == Str("hello")
    ensures Cloned(Bool(true)) == Bool(true) && Cloned(Null) == Null
  {
  }

  /** An object whose keys are single characters and whose values hold neither special key holds neither. */
  lemma OneLetterKeys(properties: seq<(string, Value)>)
    requires forall k :: 0 <= k < |properties| ==> |properties[k].0| == 1
    requires forall k :: 0 <= k < |properties| ==>
      !HasKeyAnywhere(properties[k].1, "__proto__") && !HasKeyAnywhere(properties[k].1, "hasOwnProperty")
    ensures !HasKeyAnywhere(Object(properties), "__proto__")
    ensures !HasKeyAnywhere(Object(properties), "hasOwnProperty")
  {
    PropertiesHaveKeyAt(properties, "__proto__");
    PropertiesHaveKeyAt(properties, "hasOwnProperty");
  }

  /** The nested object of the deepClone tests is cloned to an equal object, without a throw. */
  lemma ClonedNestedObject()
    ensures var obj := Object([("a", Num(1.0)), ("b", Object([("c", Num(2.0)), ("d", Object([("e", Num(3.0))]))]))]);
      Cloned(obj) == obj && !HasKeyAnywhere(obj, "hasOwnProperty")
  {
    var deepest := [("e", Num(3.0))];
    var middle := [("c", Num(2.0)), ("d", Object(deepest))];
    var properties := [("a", Num(1.0)), ("b", Object(middle))];
    OneLetterKeys(deepest);
    OneLetterKeys(middle);
    OneLetterKeys(properties);
    ClonedIdentity(Object(properties));
  }

  /** The nested array of the deepClone tests is cloned to an equal array, without a throw. */
  lemma ClonedNestedArray()
    ensures var arr := Array([Num(1.0), Array([Num(2.0), Array([Num(3.0), Num(4.0)])])]);
      Cloned(arr) == arr && !HasKeyAnywhere(arr, "hasOwnProperty")
  {
    var arr := Array([Num(1.0), Array([Num(2.0), Array([Num(3.0), Num(4.0)])])]);
    assert !HasKeyAnywhere(arr, "__proto__") && !HasKeyAnywhere(arr, "hasOwnProperty");
    ClonedIdentity(arr);
  }

  /** `{"hasOwnProperty": 1}` makes deepClone throw. */
  lemma ShadowedHasOwnProperty()
    ensures HasKeyAnywhere(Object([("hasOwnProperty", Num(1.0))]), "hasOwnProperty")
  {
    var properties := [("hasOwnProperty", Num(1.0))];
    assert PropertyHasKey(properties[0], "hasOwnProperty");
  }

  /** `{"__proto__": {"x": 1}}` is cloned to an object with no own property. */
  lemma ProtoKeyDropped()
    ensures Cloned(Object([("__proto__", Object([("x", Num(1.0))]))])) == Object([])
  {
    var pairs := ClonedProperties([("__proto__", Object([("x", Num(1.0))]))]);
    assert |pairs| == 1 && pairs[0].0 == "__proto__";
    assert pairs[..0] == [];
    assert Assigned(pairs) == Assigned(pairs[..0]);
  }
}
