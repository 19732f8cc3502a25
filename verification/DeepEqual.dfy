/** Structural equality of plain values, where a missing field and an undefined one are the same. */
module DeepEqual {

  datatype Value =
    | Undefined
    | Null
    | Bool(bool)
    | Number(real)
    | Text(string)
    | List(items: seq<Value>)
    | Object(fields: map<string, Value>)

  predicate SameType(a: Value, b: Value) {
    match a
    case Undefined => b.Undefined?
    case Bool(_) => b.Bool?
    case Number(_) => b.Number?
    case Text(_) => b.Text?
    case _ => b.Null? || b.List? || b.Object?
  }

  /**
   * deepEqual, branch by branch. The test for a missing field sees names every object inherits; what
   * they hold, a function, equals no value.
   */
  predicate DeepEqual(a: Value, b: Value, inherited: set<string>)
    decreases a
  {
    if (a.Undefined? || a.Null? || a.Bool? || a.Number? || a.Text?) && a == b then true
    else if a.Null? || b.Null? then false
    else if !SameType(a, b) then false
    else if !a.List? && !a.Object? then false
    else if a.List? || b.List? then
      a.List? && b.List? && |a.items| == |b.items| && forall i :: 0 <= i < |a.items| ==> DeepEqual(a.items[i], b.items[i], inherited)
    else
      && (forall k <- a.fields ::
            if k in b.fields then DeepEqual(a.fields[k], b.fields[k], inherited)
            else k !in inherited && DeepEqual(a.fields[k], Undefined, inherited))
      && (forall k <- b.fields :: k !in a.fields ==> b.fields[k] == Undefined)
  }

  /** The value without its undefined fields, as a round trip through storage leaves it. */
  function Stripped(v: Value): Value {
    match v
    case List(items) => List(seq(|items|, i requires 0 <= i < |items| => Stripped(items[i])))
    case Object(fields) => Object(map k | k in fields && fields[k] != Undefined :: Stripped(fields[k]))
    case _ => v
  }

  lemma StrippedUndefined(v: Value)
    ensures Stripped(v) == Undefined <==> v == Undefined
  {
  }

  /** Somewhere the first value has an undefined field that the second lacks and every object inherits. */
  predicate Trips(a: Value, b: Value, inherited: set<string>)
    decreases a
  {
    if a.List? && b.List? then
      |a.items| == |b.items| && exists i :: 0 <= i < |a.items| && Trips(a.items[i], b.items[i], inherited)
    else if a.Object? && b.Object? then
      exists k <- a.fields ::
        if k in b.fields then Trips(a.fields[k], b.fields[k], inherited) else k in inherited && a.fields[k] == Undefined
    else false
  }

  /**
   * Two values are equal exactly when they are the same once stripped, but for an undefined field with
   * an inherited name that only the first has. Without such names it is an equivalence.
   */
  lemma {:induction false} DeepEqualIff(a: Value, b: Value, inherited: set<string>)
    ensures DeepEqual(a, b, inherited) <==> Stripped(a) == Stripped(b) && !Trips(a, b, inherited)
    decreases a
  {
    if a.List? && b.List? {
      ListsIff(a, b, inherited);
    } else if a.Object? && b.Object? {
      forall k | k in a.fields
        ensures var y := if k in b.fields then b.fields[k] else Undefined;
                DeepEqual(a.fields[k], y, inherited) <==> Stripped(a.fields[k]) == Stripped(y) && !Trips(a.fields[k], y, inherited)
      {
        DeepEqualIff(a.fields[k], if k in b.fields then b.fields[k] else Undefined, inherited);
      }
      ObjectsIff(a, b, inherited);
    }
  }

  lemma {:induction false} ListsIff(a: Value, b: Value, inherited: set<string>)
    requires a.List? && b.List?
    ensures DeepEqual(a, b, inherited) <==> Stripped(a) == Stripped(b) && !Trips(a, b, inherited)
    decreases a, 0
  {
    if |a.items| == |b.items| {
      forall i | 0 <= i < |a.items|
        ensures DeepEqual(a.items[i], b.items[i], inherited) <==>
                Stripped(a.items[i]) == Stripped(b.items[i]) && !Trips(a.items[i], b.items[i], inherited)
      {
        DeepEqualIff(a.items[i], b.items[i], inherited);
      }
      if Stripped(a) == Stripped(b) {
        forall i | 0 <= i < |a.items|
          ensures Stripped(a.items[i]) == Stripped(b.items[i])
        {
          assert Stripped(a).items[i] == Stripped(b).items[i];
        }
      }
    } else {
      assert |Stripped(a).items| != |Stripped(b).items|;
    }
  }

  lemma ObjectsIff(a: Value, b: Value, inherited: set<string>)
    requires a.Object? && b.Object?
    requires forall k <- a.fields ::
               var y := if k in b.fields then b.fields[k] else Undefined;
               DeepEqual(a.fields[k], y, inherited) <==> Stripped(a.fields[k]) == Stripped(y) && !Trips(a.fields[k], y, inherited)
    ensures DeepEqual(a, b, inherited) <==> Stripped(a) == Stripped(b) && !Trips(a, b, inherited)
  {
    var s, t := Stripped(a).fields, Stripped(b).fields;
    if DeepEqual(a, b, inherited) {
      forall k
        ensures (k in s <==> k in t) && (k in s ==> s[k] == t[k])
      {
        if k in a.fields {
          StrippedUndefined(a.fields[k]);
          StrippedUndefined(if k in b.fields then b.fields[k] else Undefined);
        }
      }
      assert s == t;
    }
    if s == t && !Trips(a, b, inherited) {
      forall k | k in a.fields
        ensures if k in b.fields then DeepEqual(a.fields[k], b.fields[k], inherited)
                else k !in inherited && DeepEqual(a.fields[k], Undefined, inherited)
      {
        assert k in s <==> k in t;
        if k in b.fields {
          assert !Trips(a.fields[k], b.fields[k], inherited);
        } else {
          assert a.fields[k] == Undefined;
        }
      }
      forall k | k in b.fields && k !in a.fields
        ensures b.fields[k] == Undefined
      {
        assert k in s <==> k in t;
      }
    }
  }

  /** An undefined field with an inherited name is seen one way round only. */
  lemma InheritedNameOneWay(name: string, inherited: set<string>)
    requires name in inherited
    ensures var a, b := Object(map[name := Undefined]), Object(map[]);
            !DeepEqual(a, b, inherited) && DeepEqual(b, a, inherited)
  {
    assert name in Object(map[name := Undefined]).fields;
  }
}
