/** What the C# deserializer does with the payload of a struct, read through the tagged parser:
    the direct recursive reading of the schema, as a specification for the generated code. */
module Deserialization {
  import opened Bytes
  import opened Wire

  datatype FieldType =
    | Scalar(t: byte)
    | StructOf(struct: nat)
    | ContainerOf(t: byte, elem: FieldType)
    | MapOf(key: FieldType, elem: FieldType)

  datatype Fields = NoFields | FieldDef(id: nat, required: bool, ft: FieldType, rest: Fields)

  datatype StructDef = StructDef(base: Option<nat>, fields: Fields)

  type Schema = seq<StructDef>

  /** A type built from the structs of the schema. */
  predicate Refers(schema: seq<StructDef>, ft: FieldType) {
    match ft
    case Scalar(t) => Numeric(t) || Opaque(t)
    case StructOf(s) => s < |schema|
    case ContainerOf(t, elem) => (t == BT_LIST || t == BT_SET) && Refers(schema, elem)
    case MapOf(key, elem) => Refers(schema, key) && Refers(schema, elem)
  }

  predicate AllRefer(schema: seq<StructDef>, fields: Fields) {
    match fields
    case NoFields => true
    case FieldDef(_, _, ft, rest) => Refers(schema, ft) && AllRefer(schema, rest)
  }

  /** Structs are numbered with bases first; fields may refer to any struct, in cycles or not. */
  predicate WellFormed(schema: seq<StructDef>) {
    forall s :: 0 <= s < |schema| ==>
      (schema[s].base.Some? ==> schema[s].base.value < s) && AllRefer(schema, schema[s].fields)
  }

  /** The base of a struct; one that is not numbered before it would not be well-formed. */
  function Base(schema: seq<StructDef>, s: nat): (r: Option<nat>)
    requires s < |schema|
    ensures r.Some? ==> r.value < s
  {
    if schema[s].base.Some? && schema[s].base.value < s then schema[s].base else None
  }

  function BondType(ft: FieldType): byte {
    match ft
    case Scalar(t) => t
    case StructOf(_) => BT_STRUCT
    case ContainerOf(t, _) => t
    case MapOf(_, _) => BT_MAP
  }

  /** The types a value may have in the payload where `expected` is declared. */
  predicate Compatible(expected: byte, actual: byte) {
    || actual == expected
    || (expected == BT_DOUBLE && actual == BT_FLOAT)
    || (expected == BT_UINT64 && (actual == BT_UINT32 || actual == BT_UINT16 || actual == BT_UINT8))
    || (expected == BT_UINT32 && (actual == BT_UINT16 || actual == BT_UINT8))
    || (expected == BT_UINT16 && actual == BT_UINT8)
    || (expected == BT_INT64 && (actual == BT_INT32 || actual == BT_INT16 || actual == BT_INT8))
    || (expected == BT_INT32 && (actual == BT_INT16 || actual == BT_INT8))
    || (expected == BT_INT16 && actual == BT_INT8)
  }

  /** What happens to the object that is being read into. */
  datatype Effect =
    | Fill(struct: nat)
    | Filled(struct: nat)
    | Assign(struct: nat, id: nat)
    | Leaf(v: Value)
    | Resize(count: nat)

  // -------------------------------------------------------------------- sizes

  function SizeOf(v: Value): nat {
    match v
    case List(_, _, items) => 1 + SizeOfItems(items)
    case Map(_, _, entries) => 1 + SizeOfEntries(entries)
    case Struct(body) => 1 + SizeOfBody(body)
    case _ => 1
  }

  function SizeOfItems(items: Items): nat {
    match items
    case NoItems => 0
    case Item(head, tail) => 1 + SizeOf(head) + SizeOfItems(tail)
  }

  function SizeOfEntries(entries: Entries): nat {
    match entries
    case NoEntries => 0
    case Entry(k, v, rest) => 1 + SizeOf(k) + SizeOf(v) + SizeOfEntries(rest)
  }

  function SizeOfBody(body: Body): nat {
    match body
    case Stop => 0
    case StopBase(next) => 1 + SizeOfBody(next)
    case Field(_, v, next) => 1 + SizeOf(v) + SizeOfBody(next)
  }

  // ----------------------------------------------------------------- decoding

  /** The identifier in the next field header; a stop marker has none and reads as 0. */
  function HeaderId(body: Body): nat {
    if body.Field? then body.id else 0
  }

  /** Passes over what is left of a level: a base ends with its own marker, the most derived level
      with the struct. A payload with fewer levels than the schema has no meaning. */
  function LevelEnd(body: Body, isBase: bool): (r: Option<Body>)
    ensures r.Some? ==> SizeOfBody(r.value) <= SizeOfBody(body)
  {
    match body
    case Stop => if isBase then None else Some(Stop)
    case StopBase(next) => if isBase then Some(next) else LevelEnd(next, false)
    case Field(_, _, next) => LevelEnd(next, isBase)
  }

  /** `None` is an exception. */
  function Then(a: Option<seq<Effect>>, b: Option<seq<Effect>>): Option<seq<Effect>> {
    if a.Some? && b.Some? then Some(a.value + b.value) else None
  }

  function Before(a: Option<seq<Effect>>, b: Option<(seq<Effect>, Body)>): (r: Option<(seq<Effect>, Body)>)
    ensures r.Some? ==> b.Some? && r.value.1 == b.value.1
  {
    if a.Some? && b.Some? then Some((a.value + b.value.0, b.value.1)) else None
  }

  /** A missing field is an exception if it is required and leaves the object alone otherwise. */
  function Absent(required: bool): Option<seq<Effect>> {
    if required then None else Some([])
  }

  function Decode(schema: seq<StructDef>, ft: FieldType, v: Value): Option<seq<Effect>>
    decreases SizeOf(v), 0, 0
  {
    match ft
    case Scalar(t) => if (v.Num? || v.Raw?) && Compatible(t, v.t) then Some([Leaf(v)]) else None
    case StructOf(s) =>
      if !v.Struct? || s >= |schema| then None
      else
        (match DecodeStruct(schema, s, v.body, false)
         case None => None
         case Some((effects, _)) => Some([Fill(s)] + effects + [Filled(s)]))
    case ContainerOf(t, elem) =>
      if !v.List? || v.t != t || !Compatible(BondType(elem), v.elem) then None
      else Then(Some([Resize(Count(v.items))]), DecodeItems(schema, elem, v.items))
    case MapOf(key, elem) =>
      if !v.Map? || !Compatible(BondType(key), v.key) || !Compatible(BondType(elem), v.elem) then None
      else Then(Some([Resize(CountEntries(v.entries))]), DecodeEntries(schema, key, elem, v.entries))
  }

  function DecodeItems(schema: seq<StructDef>, elem: FieldType, items: Items): Option<seq<Effect>>
    decreases SizeOfItems(items), 0, 0
  {
    match items
    case NoItems => Some([])
    case Item(head, tail) => Then(Decode(schema, elem, head), DecodeItems(schema, elem, tail))
  }

  function DecodeEntries(schema: seq<StructDef>, key: FieldType, elem: FieldType, entries: Entries): Option<seq<Effect>>
    decreases SizeOfEntries(entries), 0, 0
  {
    match entries
    case NoEntries => Some([])
    case Entry(k, v, rest) =>
      Then(Decode(schema, key, k), Then(Decode(schema, elem, v), DecodeEntries(schema, key, elem, rest)))
  }

  /** The levels of struct `s`, root-most first, and what is left of the payload after them. */
  function DecodeStruct(schema: seq<StructDef>, s: nat, body: Body, isBase: bool): (r: Option<(seq<Effect>, Body)>)
    requires s < |schema|
    ensures r.Some? ==> SizeOfBody(r.value.1) <= SizeOfBody(body)
    decreases SizeOfBody(body), 2, s
  {
    match Base(schema, s)
    case None => DecodeLevel(schema, s, schema[s].fields, body, isBase)
    case Some(base) =>
      match DecodeStruct(schema, base, body, true)
      case None => None
      case Some((effects, rest)) => Before(Some(effects), DecodeLevel(schema, s, schema[s].fields, rest, isBase))
  }

  /** One level: the schema's fields in turn, each looked for from where the last one was. */
  function DecodeLevel(schema: seq<StructDef>, s: nat, fields: Fields, body: Body, isBase: bool)
    : (r: Option<(seq<Effect>, Body)>)
    ensures r.Some? ==> SizeOfBody(r.value.1) <= SizeOfBody(body)
    decreases SizeOfBody(body), 1, fields
  {
    match fields
    case NoFields =>
      (match LevelEnd(body, isBase)
       case None => None
       case Some(rest) => Some(([], rest)))
    case FieldDef(id, required, ft, more) =>
      if !body.Field? || body.id > id then
        Before(Absent(required), DecodeLevel(schema, s, more, body, isBase))
      else if body.id == id then
        Before(Then(Some([Assign(s, id)]), Decode(schema, ft, body.value)),
               DecodeLevel(schema, s, more, body.next, isBase))
      else if HeaderId(body.next) > id then DecodeLevel(schema, s, more, body.next, isBase)
      else DecodeLevel(schema, s, fields, body.next, isBase)
  }
}
