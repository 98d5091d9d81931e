/**
 Event schemas and their validator, over decoded JSON. Numbers are exact, strings are sequences of
 bytes, and whether a string parses as a UUID is left to a parameter, as that parser is a library's.
 */
module EventSchemas {
  import opened Prelude

  datatype Json =
    | Null
    | Bool(b: bool)
    | Num(n: real)
    | Str(s: string)
    | Arr(items: seq<Json>)
    | Obj(fields: map<string, Json>)

  datatype FieldType = StringType | IntType | FloatType | BoolType | ArrayType | ObjectType | OtherType

  datatype FieldSchema = FieldSchema(
    fieldType: FieldType,
    format: string,
    minLength: Option<int>,
    maxLength: Option<int>,
    minimum: Option<real>,
    maximum: Option<real>,
    enum: seq<string>,
    items: Option<FieldSchema>,
    properties: map<string, FieldSchema>)

  datatype EventSchema = EventSchema(fields: map<string, FieldSchema>, required: seq<string>)

  type UuidParser = string -> bool

  predicate IsValidEmail(s: string) {
    3 < |s| < 255 && '@' in s && '.' in s
  }

  /** Length bounds first; an enumeration replaces the format check. */
  predicate ValidString(s: string, schema: FieldSchema, isUuid: UuidParser) {
    (schema.minLength.Some? ==> |s| >= schema.minLength.value) &&
    (schema.maxLength.Some? ==> |s| <= schema.maxLength.value) &&
    if |schema.enum| > 0 then s in schema.enum
    else if schema.format == "uuid" then isUuid(s)
    else if schema.format == "email" then IsValidEmail(s)
    else true
  }

  predicate ValidNumber(x: real, schema: FieldSchema) {
    (schema.minimum.Some? ==> x >= schema.minimum.value) && (schema.maximum.Some? ==> x <= schema.maximum.value)
  }

  /** A null passes; unknown properties of an object pass; an integer field accepts any number, cut to an integer. */
  predicate ValidField(v: Json, schema: FieldSchema, isUuid: UuidParser)
    decreases v
  {
    v.Null? ||
    match schema.fieldType
    case StringType => v.Str? && ValidString(v.s, schema, isUuid)
    case IntType => v.Num? && ValidNumber(Truncate(v.n) as real, schema)
    case FloatType => v.Num? && ValidNumber(v.n, schema)
    case BoolType => v.Bool?
    case ArrayType =>
      v.Arr? && (schema.items.Some? ==>
        forall i :: 0 <= i < |v.items| ==> ValidField(v.items[i], schema.items.value, isUuid))
    case ObjectType =>
      v.Obj? && forall k :: k in v.fields && k in schema.properties ==>
        ValidField(v.fields[k], schema.properties[k], isUuid)
    case OtherType => false
  }

  predicate ValidData(data: Json, schema: EventSchema, isUuid: UuidParser) {
    data.Obj? &&
    (forall i :: 0 <= i < |schema.required| ==> schema.required[i] in data.fields) &&
    forall k :: k in data.fields && k in schema.fields ==> ValidField(data.fields[k], schema.fields[k], isUuid)
  }

  // ---------- What validity means, position by position ----------

  datatype Step = Key(name: string) | Index(at: nat)

  /** The value at a path, if the path leads anywhere. */
  function ValueAt(v: Json, path: seq<Step>): Option<Json>
    decreases |path|
  {
    if path == [] then Some(v)
    else match path[0]
      case Key(k) => if v.Obj? && k in v.fields then ValueAt(v.fields[k], path[1..]) else None
      case Index(i) => if v.Arr? && i < |v.items| then ValueAt(v.items[i], path[1..]) else None
  }

  /** The schema that governs a path; unknown properties and untyped items are governed by none. */
  function RuleAt(schema: FieldSchema, path: seq<Step>): Option<FieldSchema>
    decreases |path|
  {
    if path == [] then Some(schema)
    else match path[0]
      case Key(k) =>
        if schema.fieldType.ObjectType? && k in schema.properties then RuleAt(schema.properties[k], path[1..]) else None
      case Index(_) =>
        if schema.fieldType.ArrayType? && schema.items.Some? then RuleAt(schema.items.value, path[1..]) else None
  }

  /** What can be wrong with a value itself, not looking inside. */
  datatype Fault = WrongType | TooShort | TooLong | NotListed | NotUuid | NotEmail | TooSmall | TooLarge

  predicate OfType(v: Json, t: FieldType) {
    (t.StringType? && v.Str?) || (t.IntType? && v.Num?) || (t.FloatType? && v.Num?) || (t.BoolType? && v.Bool?) ||
    (t.ArrayType? && v.Arr?) || (t.ObjectType? && v.Obj?)
  }

  /** An integer field looks at a number without its fraction. */
  function Measured(x: real, t: FieldType): real { if t.IntType? then Truncate(x) as real else x }

  /** A format counts only where there is no enumeration. */
  predicate Wrong(v: Json, schema: FieldSchema, fault: Fault, isUuid: UuidParser) {
    var text, number := schema.fieldType.StringType? && v.Str?, OfType(v, schema.fieldType) && v.Num?;
    match fault
    case WrongType => !v.Null? && !OfType(v, schema.fieldType)
    case TooShort => text && schema.minLength.Some? && |v.s| < schema.minLength.value
    case TooLong => text && schema.maxLength.Some? && |v.s| > schema.maxLength.value
    case NotListed => text && schema.enum != [] && v.s !in schema.enum
    case NotUuid => text && schema.enum == [] && schema.format == "uuid" && !isUuid(v.s)
    case NotEmail =>
      text && schema.enum == [] && schema.format == "email" &&
      (|v.s| <= 3 || |v.s| >= 255 || '@' !in v.s || '.' !in v.s)
    case TooSmall => number && schema.minimum.Some? && Measured(v.n, schema.fieldType) < schema.minimum.value
    case TooLarge => number && schema.maximum.Some? && Measured(v.n, schema.fieldType) > schema.maximum.value
  }

  ghost predicate Fits(v: Json, schema: FieldSchema, isUuid: UuidParser) {
    forall fault :: !Wrong(v, schema, fault, isUuid)
  }

  /** The part of the validator that looks at a value itself. */
  predicate Passes(v: Json, schema: FieldSchema, isUuid: UuidParser) {
    v.Null? ||
    match schema.fieldType
    case StringType => v.Str? && ValidString(v.s, schema, isUuid)
    case IntType => v.Num? && ValidNumber(Truncate(v.n) as real, schema)
    case FloatType => v.Num? && ValidNumber(v.n, schema)
    case BoolType => v.Bool?
    case ArrayType => v.Arr?
    case ObjectType => v.Obj?
    case OtherType => false
  }

  /** It lets a value pass exactly if nothing is wrong with it. */
  lemma PassesIfFits(v: Json, schema: FieldSchema, isUuid: UuidParser)
    ensures Passes(v, schema, isUuid) <==> Fits(v, schema, isUuid)
  {
    if !Passes(v, schema, isUuid) {
      assert Wrong(v, schema, WrongType, isUuid) || Wrong(v, schema, TooShort, isUuid) ||
        Wrong(v, schema, TooLong, isUuid) || Wrong(v, schema, NotListed, isUuid) ||
        Wrong(v, schema, NotUuid, isUuid) || Wrong(v, schema, NotEmail, isUuid) ||
        Wrong(v, schema, TooSmall, isUuid) || Wrong(v, schema, TooLarge, isUuid);
    }
  }

  ghost predicate FitsAt(v: Json, schema: FieldSchema, path: seq<Step>, isUuid: UuidParser) {
    ValueAt(v, path).Some? && RuleAt(schema, path).Some? ==>
      Fits(ValueAt(v, path).value, RuleAt(schema, path).value, isUuid)
  }

  lemma {:induction false} ValidFits(v: Json, schema: FieldSchema, path: seq<Step>, isUuid: UuidParser)
    requires ValidField(v, schema, isUuid)
    ensures FitsAt(v, schema, path, isUuid)
    decreases |path|
  {
    PassesIfFits(v, schema, isUuid);
    if path != [] && ValueAt(v, path).Some? && RuleAt(schema, path).Some? {
      match path[0]
      case Key(k) => ValidFits(v.fields[k], schema.properties[k], path[1..], isUuid);
      case Index(i) => ValidFits(v.items[i], schema.items.value, path[1..], isUuid);
    }
  }

  /** A value that is not valid does not fit somewhere. */
  lemma {:induction false} MisfitExists(v: Json, schema: FieldSchema, isUuid: UuidParser) returns (path: seq<Step>)
    requires !ValidField(v, schema, isUuid)
    ensures !FitsAt(v, schema, path, isUuid)
    decreases v
  {
    PassesIfFits(v, schema, isUuid);
    if !Passes(v, schema, isUuid) { return []; }
    var rest;
    if schema.fieldType.ArrayType? {
      var i :| 0 <= i < |v.items| && !ValidField(v.items[i], schema.items.value, isUuid);
      rest := MisfitExists(v.items[i], schema.items.value, isUuid);
      path := [Index(i)] + rest;
    } else {
      var k :| k in v.fields && k in schema.properties && !ValidField(v.fields[k], schema.properties[k], isUuid);
      rest := MisfitExists(v.fields[k], schema.properties[k], isUuid);
      path := [Key(k)] + rest;
    }
    assert path[1..] == rest;
  }

  /**
   The recursive validator accepts a value exactly when, at every position that a schema governs, none of the
   things that can be wrong with a value is: its type, its length, what it may be, its format, its bounds.
   */
  lemma ValidExactlyWhenEverythingFits(v: Json, schema: FieldSchema, isUuid: UuidParser)
    ensures ValidField(v, schema, isUuid) <==> forall path :: FitsAt(v, schema, path, isUuid)
  {
    if ValidField(v, schema, isUuid) {
      forall path ensures FitsAt(v, schema, path, isUuid) { ValidFits(v, schema, path, isUuid); }
    } else {
      var path := MisfitExists(v, schema, isUuid);
    }
  }

  /** Data is valid exactly when it is an object, has every required field, and no field it has is wrong anywhere. */
  lemma DataValidExactlyWhen(data: Json, schema: EventSchema, isUuid: UuidParser)
    ensures ValidData(data, schema, isUuid) <==>
      data.Obj? && (forall name :: name in schema.required ==> name in data.fields) &&
      forall name, path :: name in data.fields && name in schema.fields ==>
        FitsAt(data.fields[name], schema.fields[name], path, isUuid)
  {
    if data.Obj? {
      forall name | name in data.fields && name in schema.fields
        ensures ValidField(data.fields[name], schema.fields[name], isUuid) <==>
          forall path :: FitsAt(data.fields[name], schema.fields[name], path, isUuid)
      {
        ValidExactlyWhenEverythingFits(data.fields[name], schema.fields[name], isUuid);
      }
    }
  }
}
