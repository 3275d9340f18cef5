/** Which types a payload may have where a schema declares another: the same, a narrower integer of the same
    kind, or a float for a double. */
module Conversions {
  import opened Bytes
  import opened Wire
  import opened Grammar
  import opened Deserialization
  import opened Reader
  import opened StopMarkers
  import opened Levels
  import opened TaggedParser
  import Format
  import RoundTrip

  /** By number: unsigned integers are 3 to 6, signed ones 14 to 17, in ascending width; 7 is float, 8 double. */
  predicate Widens(expected: byte, actual: byte) {
    || actual == expected
    || (3 <= actual <= expected <= 6)
    || (14 <= actual <= expected <= 17)
    || (expected == 8 && actual == 7)
  }

  /** Both unsigned or both signed, and no wider. */
  lemma ByWidth(expected: byte, actual: byte)
    ensures var unsigned := {BT_UINT8, BT_UINT16, BT_UINT32, BT_UINT64};
            var signed := {BT_INT8, BT_INT16, BT_INT32, BT_INT64};
            var kin := (expected in unsigned && actual in unsigned) || (expected in signed && actual in signed);
            Widens(expected, actual)
            <==> || actual == expected
                 || (kin && Format.NumberSize(actual) <= Format.NumberSize(expected))
                 || (expected == BT_DOUBLE && actual == BT_FLOAT)
  {
  }

  /** The number of a field's type. */
  function Number(ft: FieldType): byte {
    match ft
    case Scalar(t) => t
    case StructOf(_) => 10
    case ContainerOf(t, _) => t
    case MapOf(_, _) => 13
  }

  /** A number or string is read into a variable of any scalar type it widens to, and no other; the value
      stays what it is. */
  lemma ScalarConverts(schema: Schema, expected: byte, v: Value)
    requires Valid(v) && (v.Num? || v.Raw?)
    ensures Decode(schema, Scalar(expected), v)
         == if Widens(expected, TypeOf(v)) then Some([Leaf(v)]) else None
  {
  }

  /** The type of the items is compared even where there are none. */
  lemma ListConverts(schema: Schema, expected: byte, elem: FieldType, v: Value)
    requires v.List?
    ensures Decode(schema, ContainerOf(expected, elem), v)
         == if v.t == expected && Widens(Number(elem), v.elem)
            then Then(Some([Resize(Count(v.items))]), DecodeItems(schema, elem, v.items)) else None
  {
  }

  lemma MapConverts(schema: Schema, key: FieldType, elem: FieldType, v: Value)
    requires v.Map?
    ensures Decode(schema, MapOf(key, elem), v)
         == if Widens(Number(key), v.key) && Widens(Number(elem), v.elem)
            then Then(Some([Resize(CountEntries(v.entries))]), DecodeEntries(schema, key, elem, v.entries)) else None
  {
  }

  /** Values of other kinds are never read into a scalar, nor scalars into anything else. */
  lemma KindsDiffer(schema: Schema, ft: FieldType, v: Value)
    ensures Decode(schema, ft, v).Some? ==>
              match ft
              case Scalar(_) => v.Num? || v.Raw?
              case StructOf(s) => v.Struct? && s < |schema|
              case ContainerOf(_, _) => v.List?
              case MapOf(_, _) => v.Map?
  {
  }

  /** The same on the bytes: the encoding of `v` is read into a scalar exactly if it widens to it. */
  method ReadWidened(r: TaggedReader, schema: Schema, expected: byte, v: Value)
    returns (ok: bool, effects: seq<Effect>)
    requires Valid(v) && (v.Num? || v.Raw?) && At(r.data, r.position, EncodeValue(r.protocol, v))
    modifies r
    ensures ok <==> Widens(expected, TypeOf(v))
    ensures ok ==> effects == [Leaf(v)] && r.position == old(r.position) + |EncodeValue(r.protocol, v)|
  {
    RoundTrip.ValueRoundTrip(r.protocol, v, r.data, r.position);
    ScalarConverts(schema, expected, v);
    hide ParseValue, EncodeValue, MarksAt, Valid, Widens;
    ok, effects := ReadValue(r, schema, Scalar(expected), TypeOf(v));
  }

  /** A list of scalars, of any length, is read into one of another type exactly if its items widen. */
  method ReadWidenedList(r: TaggedReader, schema: Schema, expected: byte, v: Value)
    returns (ok: bool, effects: seq<Effect>)
    requires Valid(v) && v.List? && (Numeric(v.elem) || Opaque(v.elem))
    requires At(r.data, r.position, EncodeValue(r.protocol, v))
    modifies r
    ensures ok <==> Widens(expected, v.elem)
    ensures ok ==> r.position == old(r.position) + |EncodeValue(r.protocol, v)|
  {
    RoundTrip.ValueRoundTrip(r.protocol, v, r.data, r.position);
    ListConverts(schema, v.t, Scalar(expected), v);
    if Widens(expected, v.elem) {
      ItemsConvert(schema, expected, v.elem, v.items);
    }
    ItemsEnough(schema, expected, v.items);
    WrittenQuiet(r.protocol, v, r.data, r.position);
    HarmlessDecodes(schema, ContainerOf(v.t, Scalar(expected)), v, MarksAt(r.protocol, v.t, r.data, r.position));
    hide ParseValue, EncodeValue, MarksAt, Valid, Widens, DecodeItems;
    ok, effects := ReadValue(r, schema, ContainerOf(v.t, Scalar(expected)), v.t);
  }

  lemma {:induction false} ItemsEnough(schema: Schema, expected: byte, items: Items)
    ensures EnoughItems(schema, Scalar(expected), items)
  {
    if items.Item? {
      ItemsEnough(schema, expected, items.tail);
    }
  }

  lemma {:induction false} ItemsConvert(schema: Schema, expected: byte, t: byte, items: Items)
    requires ValidItems(t, items) && (Numeric(t) || Opaque(t)) && Widens(expected, t)
    ensures DecodeItems(schema, Scalar(expected), items).Some?
  {
    if items.Item? {
      ItemsConvert(schema, expected, t, items.tail);
    }
  }
}
