/** Values of objects that have just been created: no value takes fewer bytes in Simple Binary. */
module Defaults {
  import opened Bytes
  import opened Wire
  import Grammar
  import opened Deserialization
  import opened SimpleBinary
  import opened Slicing

  // ------------------------------------------------------------------ default values

  /** The value of an object that has just been created, if creating it ends: structs nest in each other
      at most `m` deep without a container in between. */
  function DefaultOf(m: nat, schema: Schema, ft: FieldType): Option<Value>
    decreases m, 0, 0
  {
    match ft
    case Scalar(t) =>
      if Numeric(t) then Some(Num(t, 0))
      else if t == BT_FLOAT then Some(Raw(t, [0, 0, 0, 0]))
      else if t == BT_DOUBLE then Some(Raw(t, [0, 0, 0, 0, 0, 0, 0, 0]))
      else if t == BT_STRING || t == BT_WSTRING then Some(Raw(t, []))
      else None
    case StructOf(t) =>
      if m == 0 || t >= |schema| then None
      else
        (match DefaultLevels(m - 1, schema, t, Stop)
         case None => None
         case Some(body) => Some(Struct(body)))
    case ContainerOf(t, elem) => if t == BT_LIST || t == BT_SET then Some(List(t, BondType(elem), NoItems)) else None
    case MapOf(key, elem) => Some(Map(BondType(key), BondType(elem), NoEntries))
  }

  function DefaultFields(m: nat, schema: Schema, fields: Fields, tail: Body): Option<Body>
    decreases m, 1, fields
  {
    match fields
    case NoFields => Some(tail)
    case FieldDef(id, _, ft, rest) =>
      match (DefaultOf(m, schema, ft), DefaultFields(m, schema, rest, tail))
      case (Some(v), Some(next)) => Some(Field(id, v, next))
      case _ => None
  }

  /** The levels of `t`, followed by `tail`. */
  function DefaultLevels(m: nat, schema: Schema, t: nat, tail: Body): Option<Body>
    requires t < |schema|
    decreases m, 2, t
  {
    match DefaultFields(m, schema, schema[t].fields, tail)
    case None => None
    case Some(body) =>
      match Base(schema, t)
      case None => Some(body)
      case Some(base) => DefaultLevels(m, schema, base, StopBase(body))
  }

  /** Objects of all structs can be created. */
  predicate Grounded(m: nat, schema: Schema) {
    forall t :: 0 <= t < |schema| ==> DefaultLevels(m, schema, t, Stop).Some?
  }

  lemma {:induction false} AnyTail(m: nat, schema: Schema, t: nat, tail: Body, tail': Body)
    requires t < |schema| && DefaultLevels(m, schema, t, tail).Some?
    ensures DefaultFields(m, schema, schema[t].fields, tail').Some? && DefaultLevels(m, schema, t, tail').Some?
    decreases t
  {
    hide DefaultOf;
    AnyTailFields(m, schema, schema[t].fields, tail, tail');
    if Base(schema, t).Some? {
      AnyTail(m, schema, Base(schema, t).value, StopBase(DefaultFields(m, schema, schema[t].fields, tail).value),
              StopBase(DefaultFields(m, schema, schema[t].fields, tail').value));
    }
  }

  lemma {:induction false} AnyTailFields(m: nat, schema: Schema, fields: Fields, tail: Body, tail': Body)
    requires DefaultFields(m, schema, fields, tail).Some?
    ensures DefaultFields(m, schema, fields, tail').Some?
    decreases fields
  {
    hide DefaultOf;
    if fields.FieldDef? {
      AnyTailFields(m, schema, fields.rest, tail, tail');
    }
  }

  lemma {:induction false} DefaultConforms(m: nat, schema: Schema, ft: FieldType)
    requires DefaultOf(m, schema, ft).Some?
    ensures Conforms(schema, ft, DefaultOf(m, schema, ft).value)
    decreases m, 0, 0
  {
    match ft
    case StructOf(t) => DefaultLevelsConform(m - 1, schema, t, Stop);
    case _ =>
  }

  lemma {:induction false} DefaultFieldsConform(m: nat, schema: Schema, fields: Fields, tail: Body)
    requires DefaultFields(m, schema, fields, tail).Some? && !tail.Field?
    ensures Level(schema, fields, DefaultFields(m, schema, fields, tail).value) == Some(tail)
    decreases m, 1, fields
  {
    if fields.FieldDef? {
      DefaultConforms(m, schema, fields.ft);
      DefaultFieldsConform(m, schema, fields.rest, tail);
    }
  }

  lemma {:induction false} DefaultLevelsConform(m: nat, schema: Schema, t: nat, tail: Body)
    requires t < |schema| && DefaultLevels(m, schema, t, tail).Some? && !tail.Field?
    ensures Levels(schema, t, DefaultLevels(m, schema, t, tail).value) == Some(tail)
    decreases m, 2, t
  {
    hide DefaultFields, Level;
    DefaultFieldsConform(m, schema, schema[t].fields, tail);
    if Base(schema, t).Some? {
      DefaultLevelsConform(m, schema, Base(schema, t).value,
                           StopBase(DefaultFields(m, schema, schema[t].fields, tail).value));
    }
  }

  // ------------------------------------------------ nothing is shorter than a default value

  function Len(v2: bool, body: Body): nat {
    |EncodeSimpleBody(v2, body)|
  }

  lemma ReadCountLength(v2: bool, data: seq<byte>, pos: nat)
    requires ReadCount(v2, data, pos).Some?
    ensures ReadCount(v2, data, pos).value.1 >= pos + |EncodeCount(v2, 0)|
  {
  }

  lemma ScalarLength(m: nat, v2: bool, schema: Schema, t: byte, data: seq<byte>, pos: nat)
    requires DefaultOf(m, schema, Scalar(t)).Some?
    ensures var length := |EncodeSimple(v2, DefaultOf(m, schema, Scalar(t)).value)|;
            && (ReadScalar(v2, t, data, pos).Some? ==> ReadScalar(v2, t, data, pos).value.1 >= pos + length)
            && (SkipScalar(v2, t, data, pos).Some? ==> SkipScalar(v2, t, data, pos).value >= pos + length)
  {
    if Numeric(t) {
      FastSize(t, 0);
      if ReadScalar(v2, t, data, pos).Some? {
        NumLength(t, data, pos);
      }
    } else if (t == BT_STRING || t == BT_WSTRING) && ReadCount(v2, data, pos).Some? {
      ReadCountLength(v2, data, pos);
      assert EncodeCount(v2, 0) + [] == EncodeCount(v2, 0);
    }
  }

  lemma NumLength(t: byte, data: seq<byte>, pos: nat)
    requires Numeric(t) && Grammar.ParseNum(Fast, t, data, pos).Some?
    ensures Grammar.ParseNum(Fast, t, data, pos).value.1 == pos + Size(t)
  {
  }

  lemma {:induction false} SkipLength(fuel: nat, m: nat, v2: bool, schema: Schema, ft: FieldType, data: seq<byte>,
                                      pos: nat)
    requires DefaultOf(m, schema, ft).Some? && Skip(fuel, v2, schema, ft, data, pos).Some?
    ensures Skip(fuel, v2, schema, ft, data, pos).value
         >= pos + |EncodeSimple(v2, DefaultOf(m, schema, ft).value)|
    decreases m, 0, 0
  {
    match ft
    case Scalar(t) => ScalarLength(m, v2, schema, t, data, pos);
    case StructOf(t) =>
      SkipLevelsLength(fuel - 1, m - 1, v2, schema, t, Stop, data, pos);
      StopIsFree(v2);
    case ContainerOf(t, elem) =>
      ReadCountLength(v2, data, pos);
      assert EncodeCount(v2, 0) + [] == EncodeCount(v2, 0);
    case MapOf(_, _) =>
      ReadCountLength(v2, data, pos);
      assert EncodeCount(v2, 0) + [] == EncodeCount(v2, 0);
  }

  lemma {:induction false} SkipFieldsLength(fuel: nat, m: nat, v2: bool, schema: Schema, fields: Fields, tail: Body,
                                            data: seq<byte>, pos: nat)
    requires DefaultFields(m, schema, fields, tail).Some? && SkipFields(fuel, v2, schema, fields, data, pos).Some?
    ensures SkipFields(fuel, v2, schema, fields, data, pos).value
         >= pos + Len(v2, DefaultFields(m, schema, fields, tail).value) - Len(v2, tail)
    decreases m, 1, fields
  {
    hide Skip, EncodeSimple;
    if fields.FieldDef? {
      SkipLength(fuel, m, v2, schema, fields.ft, data, pos);
      SkipFieldsLength(fuel, m, v2, schema, fields.rest, tail, data,
                       Skip(fuel, v2, schema, fields.ft, data, pos).value);
    }
  }

  lemma {:induction false} SkipLevelsLength(fuel: nat, m: nat, v2: bool, schema: Schema, t: nat, tail: Body,
                                            data: seq<byte>, pos: nat)
    requires t < |schema| && DefaultLevels(m, schema, t, tail).Some?
    requires SkipStruct(fuel, v2, schema, t, data, pos).Some?
    ensures SkipStruct(fuel, v2, schema, t, data, pos).value
         >= pos + Len(v2, DefaultLevels(m, schema, t, tail).value) - Len(v2, tail)
    decreases m, 2, t
  {
    hide SkipFields, DefaultFields;
    var body := DefaultFields(m, schema, schema[t].fields, tail).value;
    match Base(schema, t)
    case None => SkipFieldsLength(fuel, m, v2, schema, schema[t].fields, tail, data, pos);
    case Some(base) =>
      SkipLevelsLength(fuel, m, v2, schema, base, StopBase(body), data, pos);
      SkipFieldsLength(fuel, m, v2, schema, schema[t].fields, tail, data,
                       SkipStruct(fuel, v2, schema, base, data, pos).value);
  }

  // ----------------------------------------------------------- default values without any bytes

  lemma {:induction false} SkipNothing(fuel: nat, m: nat, v2: bool, schema: Schema, ft: FieldType, data: seq<byte>,
                                       pos: nat)
    requires DefaultOf(m, schema, ft).Some? && |EncodeSimple(v2, DefaultOf(m, schema, ft).value)| == 0
    ensures Skip(fuel, v2, schema, ft, data, pos).Some? ==> Skip(fuel, v2, schema, ft, data, pos) == Some(pos)
    ensures fuel >= m ==> Skip(fuel, v2, schema, ft, data, pos).Some?
    decreases m, 0, 0
  {
    match ft
    case Scalar(t) => ScalarBytes(m, v2, schema, t);
    case StructOf(t) =>
      StopIsFree(v2);
      if fuel > 0 {
        SkipNoLevels(fuel - 1, m - 1, v2, schema, t, Stop, data, pos);
      }
    case ContainerOf(_, _) =>
    case MapOf(_, _) =>
  }

  lemma ScalarBytes(m: nat, v2: bool, schema: Schema, t: byte)
    requires DefaultOf(m, schema, Scalar(t)).Some?
    ensures |EncodeSimple(v2, DefaultOf(m, schema, Scalar(t)).value)| > 0
  {
  }

  lemma {:induction false} SkipNoFields(fuel: nat, m: nat, v2: bool, schema: Schema, fields: Fields, tail: Body,
                                        data: seq<byte>, pos: nat)
    requires DefaultFields(m, schema, fields, tail).Some?
    requires Len(v2, DefaultFields(m, schema, fields, tail).value) == Len(v2, tail)
    ensures SkipFields(fuel, v2, schema, fields, data, pos).Some? ==>
              SkipFields(fuel, v2, schema, fields, data, pos) == Some(pos)
    ensures fuel >= m ==> SkipFields(fuel, v2, schema, fields, data, pos).Some?
    decreases m, 1, fields
  {
    hide Skip, EncodeSimple, DefaultOf;
    if fields.FieldDef? {
      NoShorter(m, v2, schema, fields.rest, tail);
      SkipNothing(fuel, m, v2, schema, fields.ft, data, pos);
      SkipNoFields(fuel, m, v2, schema, fields.rest, tail, data, pos);
    }
  }

  lemma {:induction false} NoShorter(m: nat, v2: bool, schema: Schema, fields: Fields, tail: Body)
    requires DefaultFields(m, schema, fields, tail).Some?
    ensures Len(v2, DefaultFields(m, schema, fields, tail).value) >= Len(v2, tail)
    decreases fields
  {
    hide EncodeSimple, DefaultOf;
    if fields.FieldDef? {
      NoShorter(m, v2, schema, fields.rest, tail);
    }
  }

  lemma {:induction false} NoShorterLevels(m: nat, v2: bool, schema: Schema, t: nat, tail: Body)
    requires t < |schema| && DefaultLevels(m, schema, t, tail).Some?
    ensures Len(v2, DefaultLevels(m, schema, t, tail).value) >= Len(v2, tail)
    decreases t
  {
    hide DefaultFields;
    NoShorter(m, v2, schema, schema[t].fields, tail);
    if Base(schema, t).Some? {
      NoShorterLevels(m, v2, schema, Base(schema, t).value,
                           StopBase(DefaultFields(m, schema, schema[t].fields, tail).value));
    }
  }

  lemma {:induction false} SkipNoLevels(fuel: nat, m: nat, v2: bool, schema: Schema, t: nat, tail: Body,
                                        data: seq<byte>, pos: nat)
    requires t < |schema| && DefaultLevels(m, schema, t, tail).Some?
    requires Len(v2, DefaultLevels(m, schema, t, tail).value) == Len(v2, tail)
    ensures SkipStruct(fuel, v2, schema, t, data, pos).Some? ==>
              SkipStruct(fuel, v2, schema, t, data, pos) == Some(pos)
    ensures fuel >= m ==> SkipStruct(fuel, v2, schema, t, data, pos).Some?
    decreases m, 2, t
  {
    hide SkipFields, DefaultFields;
    var body := DefaultFields(m, schema, schema[t].fields, tail).value;
    NoShorter(m, v2, schema, schema[t].fields, tail);
    if Base(schema, t).Some? {
      NoShorterLevels(m, v2, schema, Base(schema, t).value, StopBase(body));
      SkipNoLevels(fuel, m, v2, schema, Base(schema, t).value, StopBase(body), data, pos);
    }
    SkipNoFields(fuel, m, v2, schema, schema[t].fields, tail, data, pos);
  }
}
