/**
 * `_validate(obj, methods)` and `isMap(map)` of OtherUtils.js: duck-typing
 * checks that look only at what `typeof` says about a value and about the
 * properties read from it.
 */
module OtherUtils {

  /** The answers of `typeof`. */
  datatype TypeOf =
    | UndefinedType | ObjectType | BooleanType | NumberType | BigIntType | StringType | SymbolType | FunctionType

  /** The primitive kinds other than null and undefined. */
  datatype PrimitiveKind = Boolean | Number | BigInt | String | Symbol

  /**
   * A value as the checks see it. An `Object` is anything `typeof` calls an
   * object or a function (`callable`); `members` gives the `typeof` of each
   * property reachable on it, its prototype chain included (the methods of a
   * `Map` live on `Map.prototype`); a name it lacks reads as undefined.
   * A primitive carries its own truthiness.
   */
  datatype Subject =
    | NullValue
    | UndefinedValue
    | Primitive(kind: PrimitiveKind, truthy: bool)
    | Object(callable: bool, members: map<string, TypeOf>)

  function TypeOfSubject(x: Subject): TypeOf
  {
    match x
    case NullValue => ObjectType
    case UndefinedValue => UndefinedType
    case Primitive(k, _) =>
      (match k
       case Boolean => BooleanType
       case Number => NumberType
       case BigInt => BigIntType
       case String => StringType
       case Symbol => SymbolType)
    case Object(callable, _) => if callable then FunctionType else ObjectType
  }

  predicate Truthy(x: Subject)
  {
    match x
    case NullValue => false
    case UndefinedValue => false
    case Primitive(_, t) => t
    case Object(_, _) => true
  }

  /** `typeof obj[name]`, for an object. */
  function MemberType(x: Subject, name: string): TypeOf
    requires x.Object?
  {
    if name in x.members then x.members[name] else UndefinedType
  }

  /** `methods.every(method => typeof obj[method] === 'function')`. */
  function EveryMethod(x: Subject, methods: seq<string>): (r: bool)
    requires x.Object?
    ensures r <==> forall i :: 0 <= i < |methods| ==> MemberType(x, methods[i]) == FunctionType
  {
    if methods == [] then true
    else MemberType(x, methods[0]) == FunctionType && EveryMethod(x, methods[1..])
  }

  /** `_validate(obj, methods)`: a truthy object (not a function) all of whose listed properties are functions. */
  function Validate(x: Subject, methods: seq<string>): (r: bool)
    ensures r <==> x.Object? && !x.callable && forall i :: 0 <= i < |methods| ==> MemberType(x, methods[i]) == FunctionType
  {
    if !Truthy(x) || TypeOfSubject(x) != ObjectType then false
    else EveryMethod(x, methods)
  }

  const MapMethods: seq<string> := ["entries", "get", "set", "has", "delete"]

  /** `isMap(map)`. */
  function IsMap(x: Subject): bool
  {
    && TypeOfSubject(x) == ObjectType
    && x != NullValue
    && MemberType(x, "entries") == FunctionType
    && MemberType(x, "get") == FunctionType
    && MemberType(x, "set") == FunctionType
    && MemberType(x, "has") == FunctionType
    && MemberType(x, "delete") == FunctionType
  }

  // ---------------------------------------------------------------------
  // Properties

  /** Null, undefined, every primitive and every function fail, whatever the list. */
  lemma ValidateRejects(x: Subject, methods: seq<string>)
    requires x.NullValue? || x.UndefinedValue? || x.Primitive? || (x.Object? && x.callable)
    ensures !Validate(x, methods)
  {
  }

  /** Any non-null object passes the empty list. */
  lemma ValidateEmpty(x: Subject)
    requires x.Object? && !x.callable
    ensures Validate(x, [])
  {
  }

  /** A list that passes still passes with any of its names left out, repeated or reordered. */
  lemma ValidateSublist(x: Subject, methods: seq<string>, sub: seq<string>)
    requires Validate(x, methods)
    requires forall j :: 0 <= j < |sub| ==> sub[j] in methods
    ensures Validate(x, sub)
  {
    forall j | 0 <= j < |sub| ensures MemberType(x, sub[j]) == FunctionType {
      var i :| 0 <= i < |methods| && methods[i] == sub[j];
    }
  }

  /** Checking two lists together is checking each of them. */
  lemma ValidateAppend(x: Subject, a: seq<string>, b: seq<string>)
    ensures Validate(x, a + b) <==> Validate(x, a) && Validate(x, b)
  {
    if x.Object? && !x.callable {
      assert forall i :: 0 <= i < |a| ==> (a + b)[i] == a[i];
      assert forall i :: 0 <= i < |b| ==> (a + b)[|a| + i] == b[i];
    }
  }

  /** `isMap` is `_validate` with the five methods of a `Map`. */
  lemma IsMapIsValidate(x: Subject)
    ensures IsMap(x) <==> Validate(x, MapMethods)
  {
    if Validate(x, MapMethods) {
      assert MapMethods[0] == "entries" && MapMethods[1] == "get" && MapMethods[2] == "set";
      assert MapMethods[3] == "has" && MapMethods[4] == "delete";
    }
  }

  /** `isMap` holds exactly for a non-null object whose five `Map` methods are functions. */
  lemma IsMapMeaning(x: Subject)
    ensures IsMap(x) <==>
      x.Object? && !x.callable && forall name :: name in MapMethods ==> MemberType(x, name) == FunctionType
  {
  }
}
