/** Values of the type system and their encodings in the three tagged binary protocols. */
module Wire {
  import opened Bytes
  import opened Varint
  import opened Input

  datatype Protocol = Fast | CompactV1 | CompactV2

  const BT_STOP: byte := 0
  const BT_STOP_BASE: byte := 1
  const BT_BOOL: byte := 2
  const BT_UINT8: byte := 3
  const BT_UINT16: byte := 4
  const BT_UINT32: byte := 5
  const BT_UINT64: byte := 6
  const BT_FLOAT: byte := 7
  const BT_DOUBLE: byte := 8
  const BT_STRING: byte := 9
  const BT_STRUCT: byte := 10
  const BT_LIST: byte := 11
  const BT_SET: byte := 12
  const BT_MAP: byte := 13
  const BT_INT8: byte := 14
  const BT_INT16: byte := 15
  const BT_INT32: byte := 16
  const BT_INT64: byte := 17
  const BT_WSTRING: byte := 18

  const INT_MAX: nat := 0x7FFF_FFFF

  predicate Numeric(t: byte) {
    t == BT_BOOL || BT_UINT8 <= t <= BT_UINT64 || BT_INT8 <= t <= BT_INT64
  }

  predicate Opaque(t: byte) {
    t == BT_FLOAT || t == BT_DOUBLE || t == BT_STRING || t == BT_WSTRING
  }

  predicate IsSigned(t: byte) { BT_INT8 <= t <= BT_INT64 }

  /** Size in bytes of a number of type `t`. */
  function Size(t: byte): (k: nat)
    ensures k == 1 || k == 2 || k == 4 || k == 8
  {
    if t == BT_UINT16 || t == BT_INT16 then 2
    else if t == BT_UINT32 || t == BT_INT32 then 4
    else if t == BT_UINT64 || t == BT_INT64 then 8
    else 1
  }

  predicate InRange(t: byte, n: int) {
    if t == BT_BOOL then 0 <= n <= 1
    else if IsSigned(t) then -(Modulus(Size(t)) as int) <= 2 * n < Modulus(Size(t))
    else 0 <= n < Modulus(Size(t))
  }

  /** Floats are four or eight opaque bytes; strings are counted code units of one or two bytes. */
  predicate OpaqueShape(t: byte, raw: seq<byte>) {
    if t == BT_FLOAT then |raw| == 4
    else if t == BT_DOUBLE then |raw| == 8
    else if t == BT_STRING then |raw| <= INT_MAX
    else |raw| % 2 == 0 && |raw| <= INT_MAX
  }

  /** A struct's `Body` is its hierarchy from the root-most base to the most derived level: the
      fields of a level, `StopBase` after each level but the last, `Stop` after the last. */
  datatype Value =
    | Num(t: byte, n: int)
    | Raw(t: byte, raw: seq<byte>)
    | List(t: byte, elem: byte, items: Items)
    | Map(key: byte, elem: byte, entries: Entries)
    | Struct(body: Body)

  datatype Items = NoItems | Item(head: Value, tail: Items)

  datatype Entries = NoEntries | Entry(key: Value, value: Value, rest: Entries)

  datatype Body = Stop | StopBase(next: Body) | Field(id: nat, value: Value, next: Body)

  function TypeOf(v: Value): byte {
    match v
    case Num(t, _) => t
    case Raw(t, _) => t
    case List(t, _, _) => t
    case Map(_, _, _) => BT_MAP
    case Struct(_) => BT_STRUCT
  }

  function Count(items: Items): nat {
    match items
    case NoItems => 0
    case Item(_, tail) => 1 + Count(tail)
  }

  function CountEntries(entries: Entries): nat {
    match entries
    case NoEntries => 0
    case Entry(_, _, rest) => 1 + CountEntries(rest)
  }

  predicate DataType(t: byte) { BT_BOOL <= t <= BT_WSTRING }

  predicate Valid(v: Value)
    ensures Valid(v) ==> DataType(TypeOf(v))
    decreases v
  {
    match v
    case Num(t, n) => Numeric(t) && InRange(t, n)
    case Raw(t, raw) => Opaque(t) && OpaqueShape(t, raw)
    case List(t, elem, items) =>
      (t == BT_LIST || t == BT_SET) && DataType(elem) && Count(items) <= INT_MAX && ValidItems(elem, items)
    case Map(key, elem, entries) =>
      DataType(key) && DataType(elem) && CountEntries(entries) <= INT_MAX && ValidEntries(key, elem, entries)
    case Struct(body) => ValidBody(body)
  }

  predicate ValidItems(elem: byte, items: Items)
    decreases items
  {
    match items
    case NoItems => true
    case Item(head, tail) => TypeOf(head) == elem && Valid(head) && ValidItems(elem, tail)
  }

  predicate ValidEntries(key: byte, elem: byte, entries: Entries)
    decreases entries
  {
    match entries
    case NoEntries => true
    case Entry(k, v, rest) =>
      TypeOf(k) == key && TypeOf(v) == elem && Valid(k) && Valid(v) && ValidEntries(key, elem, rest)
  }

  predicate ValidBody(body: Body) {
    match body
    case Stop => true
    case StopBase(next) => ValidBody(next)
    case Field(id, v, next) => id < U16 && Valid(v) && ValidBody(next)
  }

  // ---------------------------------------------------------------- encodings

  function EncodeNum(p: Protocol, t: byte, n: int): (e: seq<byte>)
    ensures |e| >= 1
  {
    var u := Unsigned(n, Modulus(Size(t)));
    if Size(t) == 1 then [u]
    else if p == Fast then LittleEndian(u, Size(t))
    else if IsSigned(t) then Encode(EncodeZigzag(n, Modulus(Size(t))))
    else Encode(u)
  }

  function EncodeRaw(t: byte, raw: seq<byte>): seq<byte> {
    if t == BT_STRING then Encode(|raw|) + raw
    else if t == BT_WSTRING then Encode(|raw| / 2) + raw
    else raw
  }

  /** Identifier and type of a field; the compact form has three sizes of identifier. */
  function EncodeFieldHeader(p: Protocol, t: byte, id: nat): (e: seq<byte>)
    requires DataType(t) && id < U16
    ensures |e| >= 1
  {
    if p == Fast then [t] + LittleEndian(id, 2)
    else if id <= 5 then [t + 32 * id]
    else if id <= 0xFF then [t + 32 * 6, id]
    else [t + 32 * 7] + LittleEndian(id, 2)
  }

  /** Version 2 packs a count below seven into the type byte. */
  function EncodeListHeader(p: Protocol, elem: byte, count: nat): (e: seq<byte>)
    requires DataType(elem)
    ensures |e| >= 1
  {
    if p == CompactV2 && count < 7 then [elem + 32 * (count + 1)]
    else [elem] + Encode(count)
  }

  function EncodeMapHeader(key: byte, elem: byte, count: nat): seq<byte> {
    [key, elem] + Encode(count)
  }

  /** Version 2 puts the length of everything up to and including BT_STOP before a struct. */
  function EncodeLength(p: Protocol, length: nat): seq<byte> {
    if p == CompactV2 then Encode(length) else []
  }

  function EncodeValue(p: Protocol, v: Value): (e: seq<byte>)
    requires Valid(v)
    decreases v
  {
    match v
    case Num(t, n) => EncodeNum(p, t, n)
    case Raw(t, raw) => EncodeRaw(t, raw)
    case List(_, elem, items) => EncodeListHeader(p, elem, Count(items)) + EncodeItems(p, elem, items)
    case Map(key, elem, entries) =>
      EncodeMapHeader(key, elem, CountEntries(entries)) + EncodeEntries(p, key, elem, entries)
    case Struct(body) => EncodeLength(p, |EncodeBody(p, body)|) + EncodeBody(p, body)
  }

  function EncodeItems(p: Protocol, elem: byte, items: Items): seq<byte>
    requires ValidItems(elem, items)
    decreases items
  {
    match items
    case NoItems => []
    case Item(head, tail) => EncodeValue(p, head) + EncodeItems(p, elem, tail)
  }

  function EncodeEntries(p: Protocol, key: byte, elem: byte, entries: Entries): seq<byte>
    requires ValidEntries(key, elem, entries)
    decreases entries
  {
    match entries
    case NoEntries => []
    case Entry(k, v, rest) => EncodeValue(p, k) + (EncodeValue(p, v) + EncodeEntries(p, key, elem, rest))
  }

  function EncodeBody(p: Protocol, body: Body): (e: seq<byte>)
    requires ValidBody(body)
    ensures |e| >= 1
    decreases body
  {
    match body
    case Stop => [BT_STOP]
    case StopBase(next) => [BT_STOP_BASE] + EncodeBody(p, next)
    case Field(id, v, next) =>
      EncodeFieldHeader(p, TypeOf(v), id) + (EncodeValue(p, v) + EncodeBody(p, next))
  }
}
